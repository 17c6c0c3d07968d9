/** Base58 decoding with an in-place carry loop over little-endian bytes. */
module Base58 {
  import opened Options
  import opened Radix
  import opened Sequences

  const FIRST_DIGITS: string := "123456789ABCDEFGHJKLMNPQRSTUVWXYZ"
  const LAST_DIGITS: string := "abcdefghijkmnopqrstuvwxyz"
  const ALPHABET: string := FIRST_DIGITS + LAST_DIGITS

  function Digit(c: char): (r: Option<nat>)
    ensures r.Some? ==> r.value < 58
  {
    AlphabetSize();
    Position(ALPHABET, c, 0)
  }

  lemma AlphabetSize()
    ensures |FIRST_DIGITS| == 33 && |LAST_DIGITS| == 25 && |ALPHABET| == 58
  {
  }

  /** The alphabet read backwards. */
  ghost function Rank(c: char): int
  {
    if c <= '9' then c as int - '1' as int
    else if c <= 'H' then c as int - 'A' as int + 9
    else if c <= 'N' then c as int - 'J' as int + 17
    else if c <= 'Z' then c as int - 'P' as int + 22
    else if c <= 'k' then c as int - 'a' as int + 33
    else c as int - 'm' as int + 44
  }

  lemma RankOfFirst(digit: nat)
    requires digit < 33
    ensures |FIRST_DIGITS| == 33 && Rank(FIRST_DIGITS[digit]) == digit
  {
  }

  lemma RankOfLast(digit: nat)
    requires digit < 25
    ensures |LAST_DIGITS| == 25 && Rank(LAST_DIGITS[digit]) == digit + 33
  {
  }

  lemma RankOfAlphabet(digit: nat)
    requires digit < 58
    ensures |ALPHABET| == 58 && Rank(ALPHABET[digit]) == digit
  {
    hide Rank;
    AlphabetSize();
    if digit < 33 { RankOfFirst(digit); } else { RankOfLast(digit - 33); }
  }

  lemma DigitOfAlphabet(digit: nat)
    requires digit < 58
    ensures |ALPHABET| == 58 && Digit(ALPHABET[digit]) == Some(digit)
  {
    hide Rank;
    RankOfAlphabet(digit);
    var found := Position(ALPHABET, ALPHABET[digit], 0);
    RankOfAlphabet(found.value);
  }

  predicate Decodable(text: string)
  {
    forall i | 0 <= i < |text| :: Digit(text[i]).Some?
  }

  function Digits(text: string): (digits: seq<nat>)
    requires Decodable(text)
    ensures |digits| == |text| && InBase(58, digits)
    ensures forall i | 0 <= i < |text| :: digits[i] == Digit(text[i]).value
  {
    seq(|text|, i requires 0 <= i < |text| => Digit(text[i]).value)
  }

  function TextOf(digits: seq<nat>): (text: string)
    requires InBase(58, digits)
    ensures |text| == |digits|
    ensures forall i | 0 <= i < |digits| :: |ALPHABET| == 58 && text[i] == ALPHABET[digits[i]]
  {
    AlphabetSize();
    seq(|digits|, i requires 0 <= i < |digits| => ALPHABET[digits[i]])
  }

  /** How many times a value stands at the front of a sequence. */
  function Leading<T(==)>(s: seq<T>, x: T): (count: nat)
    ensures count <= |s| && forall i | 0 <= i < count :: s[i] == x
    ensures count < |s| ==> s[count] != x
  {
    if |s| > 0 && s[0] == x then 1 + Leading(s[1..], x) else 0
  }

  // ----- the decoder -----

  function Reversed<T>(s: seq<T>): (r: seq<T>)
    ensures |r| == |s| && forall i | 0 <= i < |s| :: r[i] == s[|s| - 1 - i]
  {
    seq(|s|, i requires 0 <= i < |s| => s[|s| - 1 - i])
  }

  /** The bytes of a decodable text: one zero byte per leading '1', then the minimal
      big-endian bytes of the number its digits denote. */
  function Decoded(text: string): (bytes: seq<nat>)
    requires Decodable(text)
    ensures InBase(256, bytes)
  {
    Repeat<nat>(0, Leading(text, '1')) + Minimal(256, Value(58, Digits(text)))
  }

  /** A little-endian number: the least significant byte first. */
  function LittleValue(bytes: seq<nat>): nat
  {
    Value(256, Reversed(bytes))
  }

  /** Little-endian bytes without a zero at the most significant end. */
  predicate Trimmed(bytes: seq<nat>)
  {
    InBase(256, bytes) && (|bytes| > 0 ==> bytes[|bytes| - 1] != 0)
  }

  /** The inner loops of the source: multiply by 58 and add a digit, byte by byte in place,
      then push what is left of the carry. */
  method MultiplyAdd(before: seq<nat>, digit: nat) returns (decoded: seq<nat>)
    requires Trimmed(before) && digit < 58
    ensures Trimmed(decoded)
    ensures LittleValue(decoded) == LittleValue(before) * 58 + digit
  {
    hide Power, LittleValue;
    decoded := before;
    var carry: nat := digit;
    CarryStart(digit);
    for k := 0 to |decoded|
      invariant |decoded| == |before| && decoded[k..] == before[k..]
      invariant InBase(256, decoded) && carry < 58
      invariant LittleValue(decoded[..k]) + carry * Power(256, k) == LittleValue(before[..k]) * 58 + digit
      invariant k == |decoded| > 0 ==> decoded[k - 1] != 0 || carry > 0
    {
      var expanded := decoded[k] * 58 + carry;
      CarryStep(decoded[..k], before[..k], before[k], carry, digit);
      assert before[..k + 1] == before[..k] + [before[k]];
      decoded := decoded[k := expanded % 256];
      assert decoded[..k + 1] == decoded[..k] + [expanded % 256];
      carry := expanded / 256;
    }
    assert decoded[..|decoded|] == decoded && before[..|before|] == before;
    LittleSnoc(decoded, carry);
    ghost var grown := if carry > 0 then decoded + [carry] else decoded;
    while carry > 0
      invariant carry < 58
      invariant grown == if carry > 0 then decoded + [carry] else decoded
    {
      decoded := decoded + [carry % 256];
      carry := carry / 256;
    }
  }

  /** The decoder of the source. */
  method DecodeBase58(text: string) returns (r: Option<seq<nat>>)
    ensures r.Some? <==> Decodable(text)
    ensures r.Some? ==> r.value == Decoded(text)
  {
    hide Power, Value, LittleValue, Digit, Digits, Trimmed;
    var decoded: seq<nat> := [];
    LittleEmpty();
    for i := 0 to |text|
      invariant Decodable(text[..i])
      invariant Trimmed(decoded) && LittleValue(decoded) == Value(58, Digits(text[..i]))
    {
      var digit := Digit(text[i]);
      if digit.None? {
        return None;
      }
      DigitsSnoc(text, i);
      decoded := MultiplyAdd(decoded, digit.value);
    }
    assert text[..|text|] == text;
    var zeros := Repeat<nat>(0, Leading(text, '1'));
    DecodedIsMinimal(decoded);
    r := Some(Reversed(decoded + zeros));
    assert Reversed(decoded + zeros) == zeros + Reversed(decoded);
  }

  lemma DigitsSnoc(text: string, i: nat)
    requires i < |text| && Decodable(text[..i]) && Digit(text[i]).Some?
    ensures Decodable(text[..i + 1]) && Digits(text[..i + 1]) == Digits(text[..i]) + [Digit(text[i]).value]
    ensures Value(58, Digits(text[..i + 1])) == Value(58, Digits(text[..i])) * 58 + Digit(text[i]).value
  {
    hide Digit, Value;
    assert Digits(text[..i + 1]) == Digits(text[..i]) + [Digit(text[i]).value];
    ValueSnoc(58, Digits(text[..i]), Digit(text[i]).value);
  }

  lemma LittleEmpty()
    ensures LittleValue([]) == 0 && Trimmed([]) && Value(58, Digits([])) == 0
  {
  }

  lemma ReversedSnoc<T>(s: seq<T>, last: T)
    ensures Reversed(s + [last]) == [last] + Reversed(s)
  {
  }

  lemma LittleSnoc(bytes: seq<nat>, last: nat)
    ensures LittleValue(bytes + [last]) == LittleValue(bytes) + last * Power(256, |bytes|)
  {
    hide Value, Power, Reversed;
    ReversedSnoc(bytes, last);
    ValueAppend(256, [last], Reversed(bytes));
    SingleDigit(last);
  }

  lemma SingleDigit(digit: nat)
    ensures Value(256, [digit]) == digit
  {
    ValueSnoc(256, [], digit);
  }

  lemma CarryStart(digit: nat)
    ensures LittleValue([]) + digit * Power(256, 0) == LittleValue([]) * 58 + digit
  {
  }

  lemma CarryArithmetic(byte: nat, carry: nat, place: nat)
    ensures ((byte * 58 + carry) % 256) * place + ((byte * 58 + carry) / 256) * (place * 256)
         == (byte * place) * 58 + carry * place
  {
    var e := byte * 58 + carry;
    var q, r := e / 256, e % 256;
    assert q * (place * 256) == (q * 256) * place;
    assert (r + q * 256) * place == e * place;
    assert (byte * 58) * place == (byte * place) * 58;
  }

  lemma CarryStep(done: seq<nat>, before: seq<nat>, byte: nat, carry: nat, digit: nat)
    requires byte < 256 && carry < 58 && |done| == |before|
    requires LittleValue(done) + carry * Power(256, |done|) == LittleValue(before) * 58 + digit
    ensures var expanded := byte * 58 + carry;
      && expanded / 256 < 58
      && LittleValue(done + [expanded % 256]) + (expanded / 256) * Power(256, |done| + 1)
         == LittleValue(before + [byte]) * 58 + digit
  {
    hide LittleValue;
    var expanded := byte * 58 + carry;
    LittleSnoc(done, expanded % 256);
    LittleSnoc(before, byte);
    CarryArithmetic(byte, carry, Power(256, |done|));
  }

  lemma DecodedIsMinimal(decoded: seq<nat>)
    requires Trimmed(decoded)
    ensures Reversed(decoded) == Minimal(256, LittleValue(decoded))
  {
    MinimalUnique(256, Reversed(decoded));
  }

  // ----- the reference encoder, and the two round trips -----

  /** One '1' per leading zero byte, then the base-58 digits of the number the bytes denote. */
  function Encode(bytes: seq<nat>): (text: string)
    requires InBase(256, bytes)
  {
    TextOf(Repeat<nat>(0, Leading(bytes, 0)) + Minimal(58, Value(256, bytes)))
  }

  lemma LeadingAppend<T>(front: seq<T>, rest: seq<T>, x: T)
    requires forall i | 0 <= i < |front| :: front[i] == x
    requires |rest| > 0 ==> rest[0] != x
    ensures Leading(front + rest, x) == |front|
  {
    assert forall i | 0 <= i < |front| :: (front + rest)[i] == x;
    assert |rest| > 0 ==> (front + rest)[|front|] != x;
  }

  lemma LeadingSplit(digits: seq<nat>)
    ensures digits == Repeat<nat>(0, Leading(digits, 0)) + digits[Leading(digits, 0)..]
    ensures forall base: nat :: Value(base, digits) == Value(base, digits[Leading(digits, 0)..])
  {
    var zeros := Repeat<nat>(0, Leading(digits, 0));
    assert digits == zeros + digits[|zeros|..];
    forall base: nat ensures Value(base, digits) == Value(base, digits[|zeros|..]) {
      ValueZeros(base, zeros, digits[|zeros|..]);
    }
  }

  /** Leading '1' characters and leading zero digits are the same thing. */
  lemma {:induction false} LeadingOnes(text: string)
    requires Decodable(text)
    ensures Leading(text, '1') == Leading(Digits(text), 0)
  {
    hide Digit;
    if |text| > 0 {
      LeadingOnes(text[1..]);
      assert Digits(text)[1..] == Digits(text[1..]);
      OneIsZero(text[0]);
    }
  }

  lemma OneIsZero(c: char)
    requires Digit(c).Some?
    ensures c == '1' <==> Digit(c).value == 0
  {
    AlphabetSize();
    DigitOfAlphabet(0);
  }

  lemma DigitsOfText(digits: seq<nat>)
    requires InBase(58, digits)
    ensures Decodable(TextOf(digits)) && Digits(TextOf(digits)) == digits
  {
    hide Digit;
    forall i | 0 <= i < |digits| ensures Digit(TextOf(digits)[i]) == Some(digits[i]) {
      DigitOfAlphabet(digits[i]);
    }
  }

  lemma TextOfDigits(text: string)
    requires Decodable(text)
    ensures TextOf(Digits(text)) == text
  {
  }

  /** Every byte string has an encoding that decodes to it. */
  lemma DecodedEncode(bytes: seq<nat>)
    requires InBase(256, bytes)
    ensures Decodable(Encode(bytes)) && Decoded(Encode(bytes)) == bytes
  {
    hide Digit, Value, TextOf, Minimal;
    var count := Leading(bytes, 0);
    var tail := Minimal(58, Value(256, bytes));
    var digits := Repeat<nat>(0, count) + tail;
    DigitsOfText(digits);
    LeadingOnes(TextOf(digits));
    LeadingAppend(Repeat<nat>(0, count), tail, 0);
    ValueZeros(58, Repeat<nat>(0, count), tail);
    LeadingSplit(bytes);
    MinimalUnique(256, bytes[count..]);
  }

  /** A decodable text is the encoding of its bytes: decoding loses nothing. */
  lemma EncodeDecoded(text: string)
    requires Decodable(text)
    ensures Encode(Decoded(text)) == text
  {
    hide Digit, Value, TextOf, Minimal;
    var digits := Digits(text);
    var count := Leading(digits, 0);
    LeadingOnes(text);
    var tail := Minimal(256, Value(58, digits));
    LeadingAppend(Repeat<nat>(0, count), tail, 0);
    ValueZeros(256, Repeat<nat>(0, count), tail);
    LeadingSplit(digits);
    MinimalUnique(58, digits[count..]);
    TextOfDigits(text);
  }

  /** Different texts never decode to the same bytes. */
  lemma DecodingIsInjective(a: string, b: string)
    requires Decodable(a) && Decodable(b) && Decoded(a) == Decoded(b)
    ensures a == b
  {
    hide Decoded, Encode;
    EncodeDecoded(a);
    EncodeDecoded(b);
  }
}
