/** The Bech32 / Bech32m checksum: a 30-bit shift register over 5-bit symbols. */
module Bech32 {

  /** Exclusive or under a name of its own, so that proofs about it can hide the bits. */
  function Xor(a: bv32, b: bv32): bv32
  {
    a ^ b
  }

  // ----- one step of the fold -----

  function Generator(index: nat): bv32
    requires index < 5
  {
    if index == 0 then 0x3b6a57b2
    else if index == 1 then 0x26508e6d
    else if index == 2 then 0x1ea119fa
    else if index == 3 then 0x3d4233dd
    else 0x2a1462b3
  }

  predicate Bit(word: bv32, index: nat)
    requires index < 5
  {
    if index == 0 then word & 1 == 1
    else if index == 1 then (word >> 1) & 1 == 1
    else if index == 2 then (word >> 2) & 1 == 1
    else if index == 3 then (word >> 3) & 1 == 1
    else (word >> 4) & 1 == 1
  }

  function When(bit: bool, word: bv32): bv32
  {
    if bit then word else 0
  }

  /** The first `count` generators selected by the bits shifted out of the register. */
  function Taps(high: bv32, count: nat): bv32
    requires count <= 5
  {
    if count == 0 then 0
    else Xor(Taps(high, count - 1), When(Bit(high, count - 1), Generator(count - 1)))
  }

  function High(checksum: bv32): bv32
  {
    checksum >> 25
  }

  function Shifted(checksum: bv32): bv32
  {
    (checksum & 0x01ff_ffff) << 5
  }

  function Step(checksum: bv32, value: bv32): bv32
  {
    Xor(Xor(Shifted(checksum), value), Taps(High(checksum), 5))
  }

  function Fold(checksum: bv32, values: seq<bv32>): bv32
  {
    if |values| == 0 then checksum
    else Step(Fold(checksum, values[..|values| - 1]), values[|values| - 1])
  }

  /** The fold of the source, with its inner loop over the five generators. */
  method Polymod(values: seq<bv32>) returns (checksum: bv32)
    ensures checksum == Fold(1, values)
  {
    hide Xor, Generator, Bit, High, Shifted;
    checksum := 1;
    for i := 0 to |values|
      invariant checksum == Fold(1, values[..i])
    {
      var high := High(checksum);
      var next := Xor(Shifted(checksum), values[i]);
      ghost var start := next;
      XorZero(start);
      for index := 0 to 5
        invariant next == Xor(start, Taps(high, index))
      {
        XorAssociative(start, Taps(high, index), Generator(index));
        XorZero(Taps(high, index));
        if Bit(high, index) {
          next := Xor(next, Generator(index));
        }
      }
      assert values[..i + 1][..i] == values[..i];
      checksum := next;
    }
    assert values[..|values|] == values;
  }

  // ----- exclusive or -----

  lemma XorZero(a: bv32)
    ensures Xor(a, 0) == a && Xor(0, a) == a && Xor(a, a) == 0
  {
  }

  lemma XorAssociative(a: bv32, b: bv32, c: bv32)
    ensures Xor(Xor(a, b), c) == Xor(a, Xor(b, c))
  {
  }

  lemma XorInterchange(a: bv32, b: bv32, c: bv32, d: bv32)
    ensures Xor(Xor(a, b), Xor(c, d)) == Xor(Xor(a, c), Xor(b, d))
  {
    hide Xor;
    XorAssociative(a, b, Xor(c, d));
    XorAssociative(b, c, d);
    XorCommutative(b, c);
    XorAssociative(c, b, d);
    XorAssociative(a, c, Xor(b, d));
  }

  lemma XorCommutative(a: bv32, b: bv32)
    ensures Xor(a, b) == Xor(b, a)
  {
  }

  lemma XorCancel(a: bv32, b: bv32)
    ensures Xor(a, Xor(a, b)) == b
    ensures Xor(a, b) == 0 ==> a == b
  {
    hide Xor;
    XorAssociative(a, a, b);
    XorZero(a);
    XorZero(b);
  }

  lemma BitXor(a: bv32, b: bv32, index: nat)
    requires index < 5
    ensures Bit(Xor(a, b), index) <==> Bit(a, index) != Bit(b, index)
  {
  }

  lemma WhenXor(x: bool, y: bool, word: bv32)
    ensures When(x != y, word) == Xor(When(x, word), When(y, word))
  {
    hide Xor;
    XorZero(word);
    XorZero(0);
  }

  // ----- the step is linear over GF(2) and its zero step is injective -----

  lemma {:induction false} TapsLinear(a: bv32, b: bv32, count: nat)
    requires count <= 5
    ensures Taps(Xor(a, b), count) == Xor(Taps(a, count), Taps(b, count))
  {
    hide Xor, Bit, When, Generator;
    if count == 0 {
      XorZero(0);
    } else {
      var n := count - 1;
      TapsLinear(a, b, n);
      BitXor(a, b, n);
      WhenXor(Bit(a, n), Bit(b, n), Generator(n));
      XorInterchange(Taps(a, n), Taps(b, n), When(Bit(a, n), Generator(n)), When(Bit(b, n), Generator(n)));
    }
  }

  lemma ShiftsLinear(a: bv32, b: bv32)
    ensures High(Xor(a, b)) == Xor(High(a), High(b))
    ensures Shifted(Xor(a, b)) == Xor(Shifted(a), Shifted(b))
  {
  }

  lemma StepLinear(a: bv32, b: bv32, v: bv32, w: bv32)
    ensures Step(Xor(a, b), Xor(v, w)) == Xor(Step(a, v), Step(b, w))
  {
    hide Xor, Shifted, High, Taps;
    ShiftsLinear(a, b);
    TapsLinear(High(a), High(b), 5);
    XorInterchange(Shifted(a), Shifted(b), v, w);
    XorInterchange(Xor(Shifted(a), v), Xor(Shifted(b), w), Taps(High(a), 5), Taps(High(b), 5));
  }

  lemma TapsUnfold(high: bv32)
    ensures Taps(high, 5) ==
      (((When(Bit(high, 0), 0x3b6a57b2) ^ When(Bit(high, 1), 0x26508e6d)) ^ When(Bit(high, 2), 0x1ea119fa))
       ^ When(Bit(high, 3), 0x3d4233dd)) ^ When(Bit(high, 4), 0x2a1462b3)
  {
    XorZero(When(Bit(high, 0), 0x3b6a57b2));
    assert Taps(high, 1) == When(Bit(high, 0), 0x3b6a57b2);
    assert Taps(high, 2) == Taps(high, 1) ^ When(Bit(high, 1), 0x26508e6d);
    assert Taps(high, 3) == Taps(high, 2) ^ When(Bit(high, 2), 0x1ea119fa);
  }

  lemma TapsBound(high: bv32, count: nat)
    requires count <= 5
    ensures Taps(high, count) < 0x4000_0000
  {
  }

  lemma StepBound(c: bv32, v: bv32)
    requires c < 0x4000_0000 && v < 0x4000_0000
    ensures Step(c, v) < 0x4000_0000
  {
    TapsBound(High(c), 5);
  }

  lemma ZeroStepInjective(c: bv32)
    requires c < 0x4000_0000
    requires Step(c, 0) == 0
    ensures c == 0
  {
    TapsUnfold(High(c));
  }

  // ----- folds over sequences -----

  predicate Symbols(values: seq<bv32>)
  {
    forall i | 0 <= i < |values| :: values[i] < 32
  }

  function XorAll(a: seq<bv32>, b: seq<bv32>): (r: seq<bv32>)
    requires |a| == |b|
    ensures |r| == |a|
  {
    seq(|a|, i requires 0 <= i < |a| => Xor(a[i], b[i]))
  }

  lemma {:induction false} FoldAppend(c: bv32, a: seq<bv32>, b: seq<bv32>)
    ensures Fold(c, a + b) == Fold(Fold(c, a), b)
  {
    if |b| == 0 {
      assert a + b == a;
    } else {
      FoldAppend(c, a, b[..|b| - 1]);
      assert (a + b)[..|a + b| - 1] == a + b[..|b| - 1];
    }
  }

  lemma {:induction false} FoldBound(c: bv32, values: seq<bv32>)
    requires c < 0x4000_0000 && Symbols(values)
    ensures Fold(c, values) < 0x4000_0000
  {
    hide Step;
    if |values| > 0 {
      FoldBound(c, values[..|values| - 1]);
      StepBound(Fold(c, values[..|values| - 1]), values[|values| - 1]);
    }
  }

  /** The whole fold is linear: the difference of two runs is the run of the difference. */
  lemma {:induction false} FoldLinear(c: bv32, d: bv32, a: seq<bv32>, b: seq<bv32>)
    requires |a| == |b|
    ensures Fold(Xor(c, d), XorAll(a, b)) == Xor(Fold(c, a), Fold(d, b))
  {
    hide Step, Xor;
    if |a| > 0 {
      var n := |a| - 1;
      FoldLinear(c, d, a[..n], b[..n]);
      assert XorAll(a, b)[..n] == XorAll(a[..n], b[..n]);
      StepLinear(Fold(c, a[..n]), Fold(d, b[..n]), a[n], b[n]);
    }
  }

  lemma {:induction false} SuffixInjective(c: bv32, d: bv32, values: seq<bv32>)
    requires c < 0x4000_0000 && d < 0x4000_0000 && Symbols(values)
    requires Fold(c, values) == Fold(d, values)
    ensures c == d
  {
    hide Step, Xor;
    if |values| > 0 {
      var n := |values| - 1;
      var c', d' := Fold(c, values[..n]), Fold(d, values[..n]);
      FoldBound(c, values[..n]);
      FoldBound(d, values[..n]);
      StepLinear(c', d', values[n], values[n]);
      XorZero(values[n]);
      XorZero(Fold(c, values));
      XorBound(c', d');
      ZeroStepInjective(Xor(c', d'));
      XorCancel(c', d');
      SuffixInjective(c, d, values[..n]);
    }
  }

  lemma XorBound(a: bv32, b: bv32)
    ensures a < 0x4000_0000 && b < 0x4000_0000 ==> Xor(a, b) < 0x4000_0000
    ensures a < 32 && b < 32 ==> Xor(a, b) < 32
  {
  }

  /** Before the register is full the fold only packs symbols side by side. */
  lemma QuietStep(c: bv32, v: bv32)
    requires c < 0x0200_0000 && v < 32
    ensures Step(c, v) == (c << 5) ^ v
    ensures Step(c, v) == 0 <==> c == 0 && v == 0
    ensures c < 0x20 ==> Step(c, v) < 0x400
    ensures c < 0x400 ==> Step(c, v) < 0x8000
    ensures c < 0x8000 ==> Step(c, v) < 0x10_0000
    ensures c < 0x10_0000 ==> Step(c, v) < 0x0200_0000
    ensures c == 0 ==> Step(c, v) < 0x20
  {
    TapsUnfold(High(c));
  }

  function Capacity(count: nat): bv32
    requires count <= 6
  {
    if count == 0 then 1
    else if count == 1 then 0x20
    else if count == 2 then 0x400
    else if count == 3 then 0x8000
    else if count == 4 then 0x10_0000
    else if count == 5 then 0x0200_0000
    else 0x4000_0000
  }

  lemma {:induction false} WindowKernel(difference: seq<bv32>)
    requires |difference| <= 6 && Symbols(difference)
    ensures Fold(0, difference) < Capacity(|difference|)
    ensures Fold(0, difference) == 0 ==> forall i | 0 <= i < |difference| :: difference[i] == 0
  {
    hide Step;
    if |difference| > 0 {
      var n := |difference| - 1;
      WindowKernel(difference[..n]);
      QuietStep(Fold(0, difference[..n]), difference[n]);
    }
  }

  /** From one register, windows of at most six symbols lead to different registers. */
  lemma WindowInjective(c: bv32, a: seq<bv32>, b: seq<bv32>)
    requires c < 0x4000_0000
    requires |a| == |b| <= 6 && Symbols(a) && Symbols(b)
    requires Fold(c, a) == Fold(c, b)
    ensures a == b
  {
    hide Fold, Xor;
    var difference := XorAll(a, b);
    FoldLinear(c, c, a, b);
    XorZero(c);
    XorZero(Fold(c, a));
    forall i | 0 <= i < |a| ensures difference[i] < 32 { XorBound(a[i], b[i]); }
    WindowKernel(difference);
    forall i | 0 <= i < |a| ensures a[i] == b[i] {
      assert difference[i] == 0;
      XorCancel(a[i], b[i]);
    }
  }

  /** Outside the window [start, start + 6) the two sequences agree. */
  predicate AgreeOutsideWindow<T(==)>(a: seq<T>, b: seq<T>, start: nat)
    requires |a| == |b|
  {
    forall i | 0 <= i < |a| && !(start <= i < start + 6) :: a[i] == b[i]
  }

  lemma FoldThreeParts(values: seq<bv32>, start: nat, end: nat)
    requires start <= end <= |values| && Symbols(values)
    ensures var c := Fold(1, values[..start]);
      && c < 0x4000_0000 && Symbols(values[start..end]) && Symbols(values[end..])
      && Fold(c, values[start..end]) < 0x4000_0000
      && Fold(1, values) == Fold(Fold(c, values[start..end]), values[end..])
  {
    hide Fold;
    assert values == values[..start] + (values[start..end] + values[end..]);
    FoldAppend(1, values[..start], values[start..end] + values[end..]);
    FoldAppend(Fold(1, values[..start]), values[start..end], values[end..]);
    FoldBound(1, values[..start]);
    FoldBound(Fold(1, values[..start]), values[start..end]);
  }

  /** A burst of errors within six consecutive symbols is always detected, at any length. */
  lemma BurstDetected(a: seq<bv32>, b: seq<bv32>, start: nat)
    requires |a| == |b| && Symbols(a) && Symbols(b)
    requires AgreeOutsideWindow(a, b, start)
    ensures Fold(1, a) == Fold(1, b) <==> a == b
  {
    hide Fold;
    if Fold(1, a) == Fold(1, b) {
      var n := |a|;
      var first := if start < n then start else n;
      var last := if start + 6 < n then start + 6 else n;
      FoldThreeParts(a, first, last);
      FoldThreeParts(b, first, last);
      assert a[..first] == b[..first] && a[last..] == b[last..];
      var c := Fold(1, a[..first]);
      SuffixInjective(Fold(c, a[first..last]), Fold(c, b[first..last]), a[last..]);
      WindowInjective(c, a[first..last], b[first..last]);
      assert a == a[..first] + a[first..last] + a[last..];
      assert b == b[..first] + b[first..last] + b[last..];
    }
  }

  /** Sequences with the same fold and the same end have the same fold up to it. */
  lemma FoldPrefix(a: seq<bv32>, b: seq<bv32>, n: nat)
    requires |a| == |b| && n <= |a| && Symbols(a) && Symbols(b) && a[n..] == b[n..]
    requires Fold(0, a) == Fold(0, b)
    ensures Fold(0, a[..n]) == Fold(0, b[..n])
  {
    hide Fold;
    assert a == a[..n] + a[n..] && b == b[..n] + b[n..];
    FoldAppend(0, a[..n], a[n..]);
    FoldAppend(0, b[..n], b[n..]);
    FoldBound(0, a[..n]);
    FoldBound(0, b[..n]);
    SuffixInjective(Fold(0, a[..n]), Fold(0, b[..n]), a[n..]);
  }

  // ----- the checksum of a message -----

  /** The lowest `count` symbols of a register, most significant first. */
  function Unpack(word: bv32, count: nat): (symbols: seq<bv32>)
    requires count <= 6
    ensures |symbols| == count && Symbols(symbols)
    decreases count
  {
    if count == 0 then [] else
      Unpack(Rest(word), count - 1) + [Low(word)]
  }

  function Rest(word: bv32): bv32
  {
    word >> 5
  }

  function Low(word: bv32): (symbol: bv32)
    ensures symbol < 32
  {
    word & 31
  }

  lemma PackStep(word: bv32)
    requires word < 0x4000_0000
    ensures Step(Rest(word), Low(word)) == word
  {
    hide Step;
    QuietStep(Rest(word), Low(word));
  }

  lemma ShiftCapacity(word: bv32, count: nat)
    requires count <= 6 && word < Capacity(count)
    ensures count > 0 ==> Rest(word) < Capacity(count - 1)
    ensures count == 0 ==> word == 0
    ensures word < 0x4000_0000
  {
  }

  lemma {:induction false} FoldUnpack(word: bv32, count: nat)
    requires count <= 6 && word < Capacity(count)
    ensures Fold(0, Unpack(word, count)) == word
    decreases count
  {
    hide Step, Capacity, Low, Rest;
    ShiftCapacity(word, count);
    if count > 0 {
      PackStep(word);
      FoldUnpack(Rest(word), count - 1);
      var u := Unpack(word, count);
      assert u[..|u| - 1] == Unpack(Rest(word), count - 1);
    }
  }

  const ZEROS: seq<bv32> := [0, 0, 0, 0, 0, 0]

  /** The six symbols that bring a message to the wanted register value. */
  function Checksum(message: seq<bv32>, wanted: bv32): (symbols: seq<bv32>)
    requires Symbols(message) && wanted < 0x4000_0000
    ensures |symbols| == 6 && Symbols(symbols)
  {
    FoldBound(1, message);
    FoldBound(Fold(1, message), ZEROS);
    XorBound(Fold(Fold(1, message), ZEROS), wanted);
    Unpack(Xor(Fold(Fold(1, message), ZEROS), wanted), 6)
  }

  /** Exactly one checksum completes a message. */
  lemma ChecksumUnique(message: seq<bv32>, wanted: bv32, symbols: seq<bv32>)
    requires Symbols(message) && wanted < 0x4000_0000
    requires |symbols| == 6 && Symbols(symbols)
    ensures Fold(1, message + symbols) == wanted <==> symbols == Checksum(message, wanted)
  {
    hide Step, Xor, Unpack;
    var c := Fold(1, message);
    FoldBound(1, message);
    FoldBound(c, ZEROS);
    var z := Fold(c, ZEROS);
    XorBound(z, wanted);
    var good := Checksum(message, wanted);
    FoldUnpack(Xor(z, wanted), 6);
    FoldLinear(c, 0, ZEROS, good);
    XorZero(c);
    assert XorAll(ZEROS, good) == good by {
      forall i | 0 <= i < 6 ensures Xor(ZEROS[i], good[i]) == good[i] { XorZero(good[i]); }
    }
    XorCancel(z, wanted);
    assert Fold(c, good) == wanted;
    FoldAppend(1, message, good);
    FoldAppend(1, message, symbols);
    if Fold(1, message + symbols) == wanted {
      WindowInjective(c, symbols, good);
    }
  }
}
