/** The check-digit schemes of payment cards (Luhn) and of IBANs (MOD 97), and the typing errors they detect. */
module Checksums {
  import opened Radix
  import opened Sequences

  // ----- Luhn -----

  /** What a digit adds at an index counted from the right. */
  function Weight(index: nat, digit: int): int
  {
    if index % 2 == 1 then
      var doubled := digit * 2;
      if doubled > 9 then doubled - 9 else doubled
    else digit
  }

  function LuhnSum(digits: seq<int>): int
  {
    if |digits| == 0 then 0 else Weight(|digits| - 1, digits[0]) + LuhnSum(digits[1..])
  }

  predicate LuhnValid(digits: seq<int>)
  {
    LuhnSum(digits) % 10 == 0
  }

  lemma {:induction false} LuhnSplit(a: seq<int>, b: seq<int>)
    ensures LuhnSum(a + b) == LuhnSum(a + Repeat<int>(0, |b|)) + LuhnSum(b)
  {
    if |a| == 0 {
      assert a + b == b && a + Repeat<int>(0, |b|) == Repeat<int>(0, |b|);
      ZerosAddNothing(|b|);
    } else {
      LuhnSplit(a[1..], b);
      assert (a + b)[1..] == a[1..] + b && (a + Repeat<int>(0, |b|))[1..] == a[1..] + Repeat<int>(0, |b|);
    }
  }

  lemma {:induction false} ZerosAddNothing(n: nat)
    ensures LuhnSum(Repeat<int>(0, n)) == 0
  {
    if n > 0 {
      ZerosAddNothing(n - 1);
      assert Repeat<int>(0, n)[1..] == Repeat<int>(0, n - 1);
    }
  }

  /** A digit in its place adds its weight. */
  lemma LuhnAt(a: seq<int>, middle: seq<int>, b: seq<int>)
    ensures LuhnSum(a + middle + b) ==
      LuhnSum(a + Repeat<int>(0, |middle| + |b|)) + LuhnSum(middle + Repeat<int>(0, |b|)) + LuhnSum(b)
  {
    assert a + middle + b == a + (middle + b);
    LuhnSplit(a, middle + b);
    LuhnSplit(middle, b);
  }

  lemma LuhnOne(digit: int, n: nat)
    ensures LuhnSum([digit] + Repeat<int>(0, n)) == Weight(n, digit)
  {
    ZerosAddNothing(n);
    assert ([digit] + Repeat<int>(0, n))[1..] == Repeat<int>(0, n);
  }

  lemma LuhnTwo(first: int, second: int, n: nat)
    ensures LuhnSum([first, second] + Repeat<int>(0, n)) == Weight(n + 1, first) + Weight(n, second)
  {
    LuhnOne(second, n);
    assert ([first, second] + Repeat<int>(0, n))[1..] == [second] + Repeat<int>(0, n);
  }

  /** One wrong digit anywhere is detected. */
  lemma WrongDigitDetected(a: seq<int>, digit: int, wrong: int, b: seq<int>)
    requires 0 <= digit <= 9 && 0 <= wrong <= 9 && LuhnValid(a + [digit] + b)
    ensures LuhnValid(a + [wrong] + b) <==> wrong == digit
  {
    hide LuhnSum;
    LuhnAt(a, [digit], b);
    LuhnAt(a, [wrong], b);
    LuhnOne(digit, |b|);
    LuhnOne(wrong, |b|);
  }

  /** Two neighbours exchanged are detected, except equal ones and a zero with a nine. */
  lemma SwapDetected(a: seq<int>, x: int, y: int, b: seq<int>)
    requires 0 <= x <= 9 && 0 <= y <= 9 && LuhnValid(a + [x, y] + b)
    ensures LuhnValid(a + [y, x] + b) <==> x == y || (x == 0 && y == 9) || (x == 9 && y == 0)
  {
    hide LuhnSum, Weight;
    LuhnAt(a, [x, y], b);
    LuhnAt(a, [y, x], b);
    LuhnTwo(x, y, |b|);
    LuhnTwo(y, x, |b|);
    WeightsOfTwo(x, y, |b|);
  }

  /** Both orders weigh the same, up to tens, exactly for those. */
  lemma WeightsOfTwo(x: int, y: int, n: nat)
    requires 0 <= x <= 9 && 0 <= y <= 9
    ensures (Weight(n + 1, x) + Weight(n, y) - Weight(n + 1, y) - Weight(n, x)) % 10 == 0 <==>
      x == y || (x == 0 && y == 9) || (x == 9 && y == 0)
  {
  }

  // ----- MOD 97 -----

  predicate IsDigit(c: char)
  {
    '0' <= c <= '9'
  }

  predicate IsUpper(c: char)
  {
    'A' <= c <= 'Z'
  }

  /** Letters stand for two digits, from A = 10 on. */
  function Worth(c: char): nat
  {
    if IsDigit(c) then c as nat - '0' as nat else if IsUpper(c) then c as nat - 'A' as nat + 10 else 0
  }

  /** Digits are worth themselves, and letters count on from ten. */
  lemma WorthListed(c: char)
    ensures IsDigit(c) <==> c in "0123456789"
    ensures IsDigit(c) ==> Worth(c) < 10 && "0123456789"[Worth(c)] == c
    ensures IsUpper(c) ==> Worth(c) == 10 + (c as nat - 65)
    ensures Worth(c) >= 10 <==> c in "ABCDEFGHIJKLMNOPQRSTUVWXYZ"
  {
  }

  function Base(c: char): nat
  {
    if IsDigit(c) then 10 else 100
  }

  /** The decimal number that the letters and digits spell. */
  function Value(text: string): nat
  {
    if |text| == 0 then 0
    else Value(text[..|text| - 1]) * Base(text[|text| - 1]) + Worth(text[|text| - 1])
  }

  predicate Spells(text: string)
  {
    forall i :: 0 <= i < |text| ==> IsDigit(text[i]) || IsUpper(text[i])
  }

  /** The first four characters go to the end. */
  function Rearranged(compact: string): string
    requires |compact| >= 4
  {
    compact[4..] + compact[..4]
  }

  predicate IbanValid(compact: string)
    requires |compact| >= 4
  {
    Spells(Rearranged(compact)) && Value(Rearranged(compact)) % 97 == 1
  }

  lemma ModStep(value: nat, base: nat, worth: nat)
    ensures (value % 97 * base + worth) % 97 == (value * base + worth) % 97
  {
    var q, r := value / 97, value % 97;
    assert value == 97 * q + r;
    assert value * base + worth == 97 * (q * base) + (r * base + worth);
    ModAdd(q * base, r * base + worth);
  }

  lemma ModAdd(k: int, x: int)
    ensures (97 * k + x) % 97 == x % 97
  {
  }

  /** The running remainder never grows past 32 bits. */
  method CheckIban(compact: string) returns (ok: bool)
    requires |compact| >= 4
    ensures ok <==> IbanValid(compact)
  {
    var rearranged := Rearranged(compact);
    var remainder: nat := 0;
    for i := 0 to |rearranged|
      invariant Spells(rearranged[..i])
      invariant remainder < 97 && remainder == Value(rearranged[..i]) % 97
    {
      var character := rearranged[i];
      assert rearranged[..i + 1][..i] == rearranged[..i];
      ModStep(Value(rearranged[..i]), Base(character), Worth(character));
      if IsDigit(character) {
        assert remainder * 10 + Worth(character) < 0x1_0000_0000;
        remainder := (remainder * 10 + Worth(character)) % 97;
      } else if IsUpper(character) {
        assert remainder * 100 + Worth(character) < 0x1_0000_0000;
        remainder := (remainder * 100 + Worth(character)) % 97;
      } else {
        return false;
      }
    }
    assert rearranged[..|rearranged|] == rearranged;
    return remainder == 1;
  }

  function Scale(text: string): nat
  {
    if |text| == 0 then 1 else Scale(text[..|text| - 1]) * Base(text[|text| - 1])
  }

  lemma ValueSnoc(text: string, c: char)
    ensures Value(text + [c]) == Value(text) * Base(c) + Worth(c) && Scale(text + [c]) == Scale(text) * Base(c)
  {
    assert (text + [c])[..|text|] == text;
  }

  lemma {:induction false} ValueAppend(a: string, b: string)
    ensures Value(a + b) == Value(a) * Scale(b) + Value(b)
    ensures Scale(a + b) == Scale(a) * Scale(b)
  {
    if |b| == 0 {
      assert a + b == a;
    } else {
      hide Value, Scale, Base, Worth;
      var before, c := b[..|b| - 1], b[|b| - 1];
      ValueAppend(a, before);
      assert b == before + [c] && a + b == (a + before) + [c];
      ValueSnoc(before, c);
      ValueSnoc(a + before, c);
      MulDistributes(Value(a) * Scale(before), Value(before), Base(c));
      MulAssociates(Value(a), Scale(before), Base(c));
      MulAssociates(Scale(a), Scale(before), Base(c));
    }
  }

  /** 97 is prime to 10. */
  lemma TenIsInvertible(x: int)
    requires (x * 10) % 97 == 0
    ensures x % 97 == 0
  {
    var k := x * 10 / 97;
    assert x * 10 == 97 * k;
    assert x == 97 * (68 * k - 7 * x);
    ModAdd(68 * k - 7 * x, 0);
  }

  lemma {:induction false} ScaleIsInvertible(x: int, text: string)
    requires (x * Scale(text)) % 97 == 0
    ensures x % 97 == 0
  {
    if |text| > 0 {
      var rest, base := Scale(text[..|text| - 1]), Base(text[|text| - 1]);
      assert x * (rest * base) == x * rest * base;
      if base == 100 {
        assert x * rest * 100 == x * rest * 10 * 10;
        TenIsInvertible(x * rest * 10);
      }
      TenIsInvertible(x * rest);
      ScaleIsInvertible(x, text[..|text| - 1]);
    }
  }

  /** Two texts that differ in one part only, of the same shape, cannot both leave remainder 1 unless the parts
      are worth the same modulo 97. */
  lemma PartsDecide(a: string, x: string, y: string, b: string)
    requires Scale(x) == Scale(y)
    ensures (Value(a + x + b) - Value(a + y + b)) % 97 == 0 <==> (Value(x) - Value(y)) % 97 == 0
  {
    hide Value, Scale;
    ValueAppend(a + x, b);
    ValueAppend(a + y, b);
    ValueAppend(a, x);
    ValueAppend(a, y);
    var difference := Value(x) - Value(y);
    MulDistributes(Value(a + x), Value(a + y), Scale(b));
    assert Value(a + x + b) - Value(a + y + b) == difference * Scale(b);
    if (difference * Scale(b)) % 97 == 0 {
      ScaleIsInvertible(difference, b);
    }
    MultipleStays(difference, Scale(b));
  }

  lemma MultipleStays(x: int, scale: int)
    ensures x % 97 == 0 ==> (x * scale) % 97 == 0
  {
    if x % 97 == 0 {
      MulAssociates(97, x / 97, scale);
      ModAdd(x / 97 * scale, 0);
    }
  }

  lemma ValueOfOne(c: char)
    ensures Value([c]) == Worth(c) && Scale([c]) == Base(c)
  {
    assert [c][..0] == [];
  }

  lemma ValueOfTwo(c: char, d: char)
    ensures Value([c, d]) == Worth(c) * Base(d) + Worth(d) && Scale([c, d]) == Base(c) * Base(d)
  {
    assert [c, d][..1] == [c];
    ValueOfOne(c);
  }

  lemma SameRemainder(x: int, y: int)
    requires x % 97 == 1
    ensures y % 97 == 1 <==> (x - y) % 97 == 0
  {
  }

  /** One character mistyped for another of its kind is detected. */
  lemma WrongCharacterDetected(a: string, c: char, wrong: char, b: string)
    requires (IsDigit(c) && IsDigit(wrong)) || (IsUpper(c) && IsUpper(wrong))
    requires Value(a + [c] + b) % 97 == 1
    ensures Value(a + [wrong] + b) % 97 == 1 <==> wrong == c
  {
    hide Value, Scale;
    ValueOfOne(c);
    ValueOfOne(wrong);
    PartsDecide(a, [c], [wrong], b);
    SameRemainder(Value(a + [c] + b), Value(a + [wrong] + b));
  }

  /** Two neighbours of the same kind exchanged are detected. */
  lemma ExchangeDetected(a: string, c: char, d: char, b: string)
    requires (IsDigit(c) && IsDigit(d)) || (IsUpper(c) && IsUpper(d))
    requires Value(a + [c, d] + b) % 97 == 1
    ensures Value(a + [d, c] + b) % 97 == 1 <==> c == d
  {
    hide Value, Scale;
    ValueOfTwo(c, d);
    ValueOfTwo(d, c);
    PartsDecide(a, [c, d], [d, c], b);
    SameRemainder(Value(a + [c, d] + b), Value(a + [d, c] + b));
  }

  /** From the right: a digit as it is, then the digits of twice the next one, and so on. */
  lemma LuhnFromTheRight(a: seq<int>, x: int, y: int)
    requires 0 <= x <= 9 && 0 <= y <= 9
    ensures LuhnSum([]) == 0 && LuhnSum([y]) == y
    ensures LuhnSum(a + [x, y]) == LuhnSum(a) + (2 * x) / 10 + (2 * x) % 10 + y
  {
    LuhnSplit(a, [x, y]);
    LuhnTwo(x, y, 0);
    assert [x, y] + Repeat<int>(0, 0) == [x, y];
    TwoZeros(a);
  }

  lemma {:induction false} TwoZeros(a: seq<int>)
    ensures LuhnSum(a + Repeat<int>(0, 2)) == LuhnSum(a)
  {
    if |a| == 0 {
      ZerosAddNothing(2);
      assert a + Repeat<int>(0, 2) == Repeat<int>(0, 2);
    } else {
      TwoZeros(a[1..]);
      assert (a + Repeat<int>(0, 2))[1..] == a[1..] + Repeat<int>(0, 2);
    }
  }

  /** One more character. */
  lemma Spelt(text: string, count: nat, value: nat, next: nat)
    requires count < |text| && Value(text[..count]) == value
    requires next == value * Base(text[count]) + Worth(text[count])
    ensures Value(text[..count + 1]) == next
  {
    hide Base, Worth;
    assert text[..count + 1] == text[..count] + [text[count]];
    ValueSnoc(text[..count], text[count]);
  }

  /** A published account number, which fixes what a letter is worth. */
  lemma KnownAccount()
    ensures IbanValid("GB82" + "WEST12345698765432")
  {
    hide Value;
    var t := "WEST12345698765432" + "GB82";
    assert Rearranged("GB82" + "WEST12345698765432") == t;
    assert Value(t[..0]) == 0 by { ValueOfNone(); assert t[..0] == ""; }
    Spelt(t, 0, 0, 32);
    Spelt(t, 1, 32, 3214);
    Spelt(t, 2, 3214, 321428);
    Spelt(t, 3, 321428, 32142829);
    Spelt(t, 4, 32142829, 321428291);
    Spelt(t, 5, 321428291, 3214282912);
    Spelt(t, 6, 3214282912, 32142829123);
    Spelt(t, 7, 32142829123, 321428291234);
    Spelt(t, 8, 321428291234, 3214282912345);
    Spelt(t, 9, 3214282912345, 32142829123456);
    Spelt(t, 10, 32142829123456, 321428291234569);
    Spelt(t, 11, 321428291234569, 3214282912345698);
    Spelt(t, 12, 3214282912345698, 32142829123456987);
    Spelt(t, 13, 32142829123456987, 321428291234569876);
    Spelt(t, 14, 321428291234569876, 3214282912345698765);
    Spelt(t, 15, 3214282912345698765, 32142829123456987654);
    Spelt(t, 16, 32142829123456987654, 321428291234569876543);
    Spelt(t, 17, 321428291234569876543, 3214282912345698765432);
    Spelt(t, 18, 3214282912345698765432, 321428291234569876543216);
    Spelt(t, 19, 321428291234569876543216, 32142829123456987654321611);
    Spelt(t, 20, 32142829123456987654321611, 321428291234569876543216118);
    Spelt(t, 21, 321428291234569876543216118, 3214282912345698765432161182);
    assert t[..22] == t;
  }

  lemma ValueOfNone()
    ensures Value("") == 0
  {
  }
}
