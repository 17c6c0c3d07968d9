/** Bitcoin SegWit addresses: the validator accepts exactly the Bech32 / Bech32m encodings
    of witness programs, in one letter case. A byte of the source is a char here. */
module SegWit {
  import opened Bech32
  import opened Bech32Distance
  import opened Bech32Field
  import opened Bech32Twins
  import opened BitGroups
  import opened Options
  import opened Radix
  import opened Sequences

  const CHARSET: string := "qpzry9x8gf2tvdw0s3jn54khce6mua7l"
  const BECH32: bv32 := 1
  const BECH32M: bv32 := 0x2bc8_30a3

  // ----- characters -----

  predicate IsLower(c: char) { 'a' <= c <= 'z' }

  predicate IsUpper(c: char) { 'A' <= c <= 'Z' }

  function ToLower(c: char): char
  {
    if IsUpper(c) then (c as int + 32) as char else c
  }

  /** The letters, and the small one for every capital. */
  lemma SmallLetters(c: char)
    ensures IsLower(c) <==> c in "abcdefghijklmnopqrstuvwxyz"
  {
  }

  lemma CapitalLetters(c: char)
    ensures IsUpper(c) <==> c in "ABCDEFGHIJKLMNOPQRSTUVWXYZ"
  {
  }

  lemma ToLowerMeans(c: char)
    ensures ToLower(c) == c <==> !IsUpper(c)
    ensures IsUpper(c) ==> IsLower(ToLower(c)) && ToLower(c) - 'a' == c - 'A'
  {
  }

  function Lowered(s: string): (r: string)
    ensures |r| == |s|
    ensures forall i | 0 <= i < |s| :: r[i] == ToLower(s[i])
  {
    seq(|s|, i requires 0 <= i < |s| => ToLower(s[i]))
  }

  predicate MixedCase(s: string)
  {
    (exists c | c in s :: IsLower(c)) && (exists c | c in s :: IsUpper(c))
  }

  /** The last position of a character, as the source's `rfind` finds it. */
  function LastPosition(s: string, c: char): (r: Option<nat>)
    ensures r.Some? ==> r.value < |s| && s[r.value] == c && forall i | r.value < i < |s| :: s[i] != c
    ensures r.None? ==> c !in s
  {
    if |s| == 0 then None
    else if s[|s| - 1] == c then Some(|s| - 1)
    else LastPosition(s[..|s| - 1], c)
  }

  function Symbol(c: char): Option<nat>
  {
    Position(CHARSET, c, 0)
  }

  predicate AllSymbols(s: string)
  {
    forall i | 0 <= i < |s| :: Symbol(s[i]).Some?
  }

  function SymbolsOf(s: string): (values: seq<nat>)
    requires AllSymbols(s)
    ensures |values| == |s| && InBase(32, values)
    ensures forall i | 0 <= i < |s| :: values[i] == Symbol(s[i]).value
  {
    assert |CHARSET| == 32;
    seq(|s|, i requires 0 <= i < |s| => Symbol(s[i]).value)
  }

  function TextOf(values: seq<nat>): (s: string)
    requires InBase(32, values)
    ensures |s| == |values|
    ensures forall i | 0 <= i < |values| :: s[i] == CHARSET[values[i]]
  {
    assert |CHARSET| == 32;
    seq(|values|, i requires 0 <= i < |values| => CHARSET[values[i]])
  }

  /** The character set read backwards. */
  ghost function Rank(c: char): nat
  {
    if c < 'g' then
      if c < '7' then
        if c == '0' then 15 else if c == '2' then 10 else if c == '3' then 17
        else if c == '4' then 21 else if c == '5' then 20 else 26
      else if c == '7' then 30 else if c == '8' then 7 else if c == '9' then 5
      else if c == 'a' then 29 else if c == 'c' then 24 else if c == 'd' then 13 else if c == 'e' then 25 else 9
    else if c < 'p' then
      if c == 'g' then 8 else if c == 'h' then 23 else if c == 'j' then 18
      else if c == 'k' then 22 else if c == 'l' then 31 else if c == 'm' then 27 else 19
    else if c == 'p' then 1 else if c == 'q' then 0 else if c == 'r' then 3 else if c == 's' then 16
    else if c == 't' then 11 else if c == 'u' then 28 else if c == 'v' then 12 else if c == 'w' then 14
    else if c == 'x' then 6 else if c == 'y' then 4 else 2
  }

  lemma RankOfCharset(value: nat)
    requires value < 32
    ensures |CHARSET| == 32 && Rank(CHARSET[value]) == value
  {
  }

  lemma CharsetAvoids(value: nat)
    requires value < 32
    ensures |CHARSET| == 32 && CHARSET[value] != '1' && !IsUpper(CHARSET[value])
  {
  }

  lemma CharsetDistinct(value: nat)
    requires value < 32
    ensures |CHARSET| == 32 && Symbol(CHARSET[value]) == Some(value)
  {
    hide Rank;
    assert |CHARSET| == 32 by { RankOfCharset(value); }
    var found := Symbol(CHARSET[value]);
    RankOfCharset(value);
    RankOfCharset(found.value);
  }

  lemma SymbolsOfText(values: seq<nat>)
    requires InBase(32, values)
    ensures AllSymbols(TextOf(values)) && SymbolsOf(TextOf(values)) == values
  {
    hide Symbol;
    var s := TextOf(values);
    forall i | 0 <= i < |s| ensures Symbol(s[i]) == Some(values[i]) { CharsetDistinct(values[i]); }
  }

  lemma TextOfSymbols(s: string)
    requires AllSymbols(s)
    ensures TextOf(SymbolsOf(s)) == s
  {
  }

  // ----- symbols as machine words -----

  function Word(value: nat): (word: bv32)
    requires value < 32
    ensures word < 32
  {
    (value as bv5) as bv32
  }

  lemma WordInjective(value: nat)
    requires value < 32
    ensures Word(value) as int == value
  {
  }

  function Words(values: seq<nat>): (words: seq<bv32>)
    requires InBase(32, values)
    ensures |words| == |values| && Symbols(words)
    ensures forall i | 0 <= i < |values| :: words[i] == Word(values[i])
  {
    seq(|values|, i requires 0 <= i < |values| => Word(values[i]))
  }

  // ----- the validator -----

  /** The human-readable part as symbols: the high bits, a zero, the low bits. */
  function ExpandedHrp(hrp: string): (values: seq<nat>)
    requires forall i | 0 <= i < |hrp| :: hrp[i] < 128 as char
    ensures InBase(32, values) && |values| == 2 * |hrp| + 1
  {
    seq(|hrp|, i requires 0 <= i < |hrp| => hrp[i] as nat / 32)
    + [0]
    + seq(|hrp|, i requires 0 <= i < |hrp| => hrp[i] as nat % 32)
  }

  predicate KnownHrp(hrp: string)
  {
    hrp == "bc" || hrp == "tb"
  }

  function Wanted(version: nat): bv32
  {
    if version == 0 then BECH32 else BECH32M
  }

  function ChecksumInput(hrp: string, data: seq<nat>): (values: seq<nat>)
    requires KnownHrp(hrp) && InBase(32, data)
    ensures InBase(32, values) && |values| == 5 + |data|
  {
    ExpandedHrp(hrp) + data
  }

  predicate ProgramLength(version: nat, length: nat)
  {
    2 <= length <= 40 && (version != 0 || length == 20 || length == 32)
  }

  /** What the symbols after the separator must satisfy. */
  predicate ValidData(hrp: string, data: seq<nat>)
    requires KnownHrp(hrp) && InBase(32, data)
  {
    && |data| >= 7
    && Fold(1, Words(ChecksumInput(hrp, data))) == Wanted(data[0])
    && data[0] <= 16
    && Regroupable(data[1..|data| - 6])
    && ProgramLength(data[0], |Regroup(data[1..|data| - 6])|)
  }

  predicate WellSplit(candidate: string)
  {
    var lower := Lowered(candidate);
    && 8 <= |candidate| <= 90
    && !MixedCase(candidate)
    && LastPosition(lower, '1').Some?
    && KnownHrp(lower[..LastPosition(lower, '1').value])
    && AllSymbols(lower[LastPosition(lower, '1').value + 1..])
  }

  function Hrp(candidate: string): (hrp: string)
    requires WellSplit(candidate)
    ensures KnownHrp(hrp)
  {
    Lowered(candidate)[..LastPosition(Lowered(candidate), '1').value]
  }

  function Data(candidate: string): (data: seq<nat>)
    requires WellSplit(candidate)
    ensures InBase(32, data)
  {
    SymbolsOf(Lowered(candidate)[LastPosition(Lowered(candidate), '1').value + 1..])
  }

  predicate ValidAddress(candidate: string)
  {
    WellSplit(candidate) && ValidData(Hrp(candidate), Data(candidate))
  }

  /** The second half of the source's validator, from the decoded symbols on. */
  method IsValidData(hrp: string, data: seq<nat>) returns (valid: bool)
    requires KnownHrp(hrp) && InBase(32, data)
    ensures valid <==> ValidData(hrp, data)
  {
    hide Fold, Regroup, Regroupable, ChecksumInput, Words, KnownHrp, Wanted;
    if |data| < 7 {
      return false;
    }
    var checksum := Polymod(Words(ChecksumInput(hrp, data)));
    var witnessVersion := data[0];
    if witnessVersion > 16 || checksum != Wanted(witnessVersion) {
      return false;
    }
    var program := ConvertToBytes(data[1..|data| - 6]);
    if program.None? {
      return false;
    }
    valid := 2 <= |program.value| <= 40
      && (witnessVersion != 0 || |program.value| == 20 || |program.value| == 32);
  }

  /** The validator of the source. */
  method IsValidBitcoinSegwitAddress(candidate: string) returns (valid: bool)
    ensures valid <==> ValidAddress(candidate)
  {
    hide ValidData, AllSymbols, SymbolsOf, LastPosition, MixedCase, KnownHrp;
    if !(8 <= |candidate| <= 90) || MixedCase(candidate) {
      return false;
    }
    var normalized := Lowered(candidate);
    var separator := LastPosition(normalized, '1');
    if separator.None? {
      return false;
    }
    var hrp, encoded := normalized[..separator.value], normalized[separator.value + 1..];
    if !KnownHrp(hrp) || !AllSymbols(encoded) {
      return false;
    }
    valid := IsValidData(hrp, SymbolsOf(encoded));
  }

  // ----- the reference encoder -----

  datatype Address = Address(hrp: string, version: nat, program: seq<nat>)

  predicate WellFormed(address: Address)
  {
    && KnownHrp(address.hrp)
    && address.version <= 16
    && InBase(256, address.program)
    && ProgramLength(address.version, |address.program|)
  }

  /** The addresses there are: on two networks, of 17 versions, with programs of 20 or 32 bytes for version 0 and of
      2 to 40 for the others. */
  lemma WellFormedMeans(address: Address)
    ensures WellFormed(address) <==>
      && (address.hrp == ['b', 'c'] || address.hrp == ['t', 'b'])
      && (forall i | 0 <= i < |address.program| :: address.program[i] < 256)
      && (if address.version == 0 then |address.program| == 20 || |address.program| == 32
          else address.version < 17 && 1 < |address.program| < 41)
  {
  }

  function Payload(address: Address): (values: seq<nat>)
    requires WellFormed(address)
    ensures InBase(32, values) && |values| == 1 + SymbolCount(|address.program|)
  {
    [address.version] + Ungroup(address.program)
  }

  function Numbers(words: seq<bv32>): (values: seq<nat>)
    requires Symbols(words)
    ensures InBase(32, values) && |values| == |words|
  {
    seq(|words|, i requires 0 <= i < |words| => words[i] as nat)
  }

  lemma WordOfNumber(word: bv32)
    requires word < 32
    ensures word as nat < 32 && Word(word as nat) == word
  {
  }

  lemma WordsOfNumbers(words: seq<bv32>)
    requires Symbols(words)
    ensures Words(Numbers(words)) == words
  {
    hide Word;
    forall i | 0 <= i < |words| ensures Words(Numbers(words))[i] == words[i] { WordOfNumber(words[i]); }
  }

  lemma NumbersOfWords(values: seq<nat>)
    requires InBase(32, values)
    ensures Numbers(Words(values)) == values
  {
    hide Word;
    forall i | 0 <= i < |values| ensures Numbers(Words(values))[i] == values[i] { WordInjective(values[i]); }
  }

  lemma WordsAppend(a: seq<nat>, b: seq<nat>)
    requires InBase(32, a) && InBase(32, b)
    ensures InBase(32, a + b) && Words(a + b) == Words(a) + Words(b)
  {
    hide Word;
  }

  lemma WantedBound(version: nat)
    ensures Wanted(version) < 0x4000_0000
  {
  }

  /** The checksum symbols of a payload that starts with the witness version. */
  function ChecksumOf(hrp: string, payload: seq<nat>): (values: seq<nat>)
    requires KnownHrp(hrp) && InBase(32, payload) && |payload| > 0
    ensures InBase(32, values) && |values| == 6
  {
    WantedBound(payload[0]);
    Numbers(Checksum(Words(ChecksumInput(hrp, payload)), Wanted(payload[0])))
  }

  function Encode(address: Address): (text: string)
    requires WellFormed(address)
  {
    var payload := Payload(address);
    address.hrp + "1" + TextOf(payload + ChecksumOf(address.hrp, payload))
  }

  /** The address a valid candidate stands for. */
  function Decode(candidate: string): (address: Address)
    requires ValidAddress(candidate)
    ensures WellFormed(address)
  {
    var data := Data(candidate);
    Address(Hrp(candidate), data[0], Regroup(data[1..|data| - 6]))
  }

  /** The last six symbols pass the checksum exactly when they are the checksum. */
  lemma ChecksumDecides(hrp: string, payload: seq<nat>, tail: seq<nat>)
    requires KnownHrp(hrp) && InBase(32, payload) && |payload| > 0
    requires InBase(32, tail) && |tail| == 6
    ensures Fold(1, Words(ChecksumInput(hrp, payload + tail))) == Wanted(payload[0])
       <==> tail == ChecksumOf(hrp, payload)
  {
    hide Fold, Words, Numbers, ExpandedHrp, Wanted, KnownHrp;
    var message := ChecksumInput(hrp, payload);
    assert ChecksumInput(hrp, payload + tail) == message + tail;
    WordsAppend(message, tail);
    WantedBound(payload[0]);
    ChecksumUnique(Words(message), Wanted(payload[0]), Words(tail));
    NumbersOfWords(tail);
    WordsOfNumbers(Checksum(Words(message), Wanted(payload[0])));
  }

  lemma ValidDataIsEncoded(hrp: string, data: seq<nat>)
    requires KnownHrp(hrp) && InBase(32, data) && ValidData(hrp, data)
    ensures var address := Address(hrp, data[0], Regroup(data[1..|data| - 6]));
      WellFormed(address) && data == Payload(address) + ChecksumOf(hrp, Payload(address))
  {
    hide Fold, Words, Wanted, KnownHrp, ChecksumOf, ChecksumInput, Regroupable, Regroup, Ungroup;
    var n := |data| - 6;
    assert data == data[..n] + data[n..];
    ChecksumDecides(hrp, data[..n], data[n..]);
    UngroupRegroup(data[1..n]);
    assert data[..n] == [data[0]] + data[1..n];
  }

  lemma EncodedDataIsValid(address: Address)
    requires WellFormed(address)
    ensures var data := Payload(address) + ChecksumOf(address.hrp, Payload(address));
      ValidData(address.hrp, data) && data[0] == address.version && Regroup(data[1..|data| - 6]) == address.program
  {
    hide Fold, Words, Wanted, KnownHrp, ChecksumOf, ChecksumInput, Regroupable, Regroup, Ungroup;
    var payload := Payload(address);
    var data := payload + ChecksumOf(address.hrp, payload);
    ChecksumDecides(address.hrp, payload, ChecksumOf(address.hrp, payload));
    RegroupUngroup(address.program);
    assert data[1..|data| - 6] == Ungroup(address.program);
  }

  lemma TextAvoids(hrp: string, data: seq<nat>)
    requires KnownHrp(hrp) && InBase(32, data)
    ensures var text := hrp + "1" + TextOf(data);
      && |text| == 3 + |data| && text[2] == '1' && text[..2] == hrp && text[3..] == TextOf(data)
      && (forall i | 0 <= i < |text| :: !IsUpper(text[i]))
      && (forall i | 2 < i < |text| :: text[i] != '1')
  {
    var text := hrp + "1" + TextOf(data);
    forall i | 0 <= i < |text| ensures !IsUpper(text[i]) && (i > 2 ==> text[i] != '1') {
      if i > 2 { CharsetAvoids(data[i - 3]); }
    }
  }

  lemma SplitOfEncoded(hrp: string, data: seq<nat>)
    requires KnownHrp(hrp) && InBase(32, data)
    ensures var text := hrp + "1" + TextOf(data);
      && Lowered(text) == text && !MixedCase(text)
      && LastPosition(text, '1') == Some(2)
      && text[..2] == hrp && text[3..] == TextOf(data)
  {
    hide KnownHrp, TextOf, LastPosition;
    TextAvoids(hrp, data);
    LowerText(hrp + "1" + TextOf(data));
  }

  lemma LowerText(text: string)
    requires forall i | 0 <= i < |text| :: !IsUpper(text[i])
    ensures Lowered(text) == text && !MixedCase(text)
  {
  }

  /** Encoding then validating and decoding gives the address back. */
  lemma DecodeEncode(address: Address)
    requires WellFormed(address)
    ensures ValidAddress(Encode(address)) && Decode(Encode(address)) == address
  {
    hide ValidData, TextOf, SymbolsOf, AllSymbols, LastPosition, Lowered, MixedCase, KnownHrp, Payload, ChecksumOf,
         Regroup;
    var payload := Payload(address);
    var data := payload + ChecksumOf(address.hrp, payload);
    SplitOfEncoded(address.hrp, data);
    SymbolsOfText(data);
    EncodedDataIsValid(address);
  }

  /** A valid candidate is, up to letter case, the encoding of what it decodes to. */
  lemma EncodeDecode(candidate: string)
    requires ValidAddress(candidate)
    ensures Lowered(candidate) == Encode(Decode(candidate))
  {
    hide ValidData, Lowered, MixedCase, Payload, ChecksumOf, Regroup, LastPosition, SymbolsOf, TextOf, AllSymbols,
         KnownHrp;
    var lower := Lowered(candidate);
    var separator := LastPosition(lower, '1').value;
    ValidDataIsEncoded(Hrp(candidate), Data(candidate));
    TextOfSymbols(lower[separator + 1..]);
    assert lower == lower[..separator] + "1" + lower[separator + 1..];
  }

  /** The validator accepts exactly the encodings, in one letter case. */
  lemma ValidIffEncoding(candidate: string)
    ensures ValidAddress(candidate) <==>
      !MixedCase(candidate) && exists address :: WellFormed(address) && Lowered(candidate) == Encode(address)
  {
    hide ValidData, Encode, Lowered, MixedCase, LastPosition, KnownHrp, AllSymbols;
    if ValidAddress(candidate) {
      EncodeDecode(candidate);
      assert WellFormed(Decode(candidate));
    }
    if !MixedCase(candidate) && exists address :: WellFormed(address) && Lowered(candidate) == Encode(address) {
      var address :| WellFormed(address) && Lowered(candidate) == Encode(address);
      DecodeEncode(address);
      LoweredTwice(candidate);
    }
  }

  lemma LoweredTwice(s: string)
    ensures Lowered(Lowered(s)) == Lowered(s)
  {
  }

  // ----- what the checksum protects against -----

  /** The two symbol strings differ in at most two places, or only in a window of six. */
  predicate FewErrors(a: seq<nat>, b: seq<nat>)
  {
    && |a| == |b|
    && ((exists i: nat, j: nat | i < j < |a| :: AgreeExceptAt(a, b, i, j))
     || (exists start: nat | start <= |a| :: AgreeOutsideWindow(a, b, start)))
  }

  lemma WordsDetermineValues(a: seq<nat>, b: seq<nat>)
    requires InBase(32, a) && InBase(32, b) && Words(a) == Words(b)
    ensures a == b
  {
    hide Words, Numbers;
    NumbersOfWords(a);
    NumbersOfWords(b);
  }

  lemma FewErrorsDetected(hrp: string, a: seq<nat>, b: seq<nat>)
    requires KnownHrp(hrp) && InBase(32, a) && InBase(32, b) && |a| <= 90
    requires FewErrors(a, b)
    requires Fold(1, Words(ChecksumInput(hrp, a))) == Fold(1, Words(ChecksumInput(hrp, b)))
    ensures a == b
  {
    hide Fold, Word, ExpandedHrp;
    var front := ExpandedHrp(hrp);
    var x, y := Words(front + a), Words(front + b);
    if exists i: nat, j: nat | i < j < |a| :: AgreeExceptAt(a, b, i, j) {
      var i: nat, j: nat :| i < j < |a| && AgreeExceptAt(a, b, i, j);
      forall k | 0 <= k < |x| && k != i + 5 && k != j + 5 ensures x[k] == y[k] {
        if k >= 5 { assert a[k - 5] == b[k - 5]; }
      }
      TwoErrorsDetected(x, y, i + 5, j + 5);
    } else {
      var start: nat :| start <= |a| && AgreeOutsideWindow(a, b, start);
      forall k | 0 <= k < |x| && !(start + 5 <= k < start + 11) ensures x[k] == y[k] {
        if k >= 5 { assert a[k - 5] == b[k - 5]; }
      }
      BurstDetected(x, y, start + 5);
    }
    WordsDetermineValues(front + a, front + b);
    assert (front + a)[5..] == a && (front + b)[5..] == b;
  }

  lemma ThreeErrorsInData(hrp: string, a: seq<nat>, b: seq<nat>, i: nat, j: nat, k: nat)
    requires KnownHrp(hrp) && InBase(32, a) && InBase(32, b) && |a| == |b| <= 90
    requires i < j < k < |a| && AgreeExceptAtThree(a, b, i, j, k)
    requires Fold(1, Words(ChecksumInput(hrp, a))) == Fold(1, Words(ChecksumInput(hrp, b)))
    ensures a == b
  {
    hide Fold, Word, ExpandedHrp;
    var front := ExpandedHrp(hrp);
    var x, y := Words(front + a), Words(front + b);
    forall t | 0 <= t < |x| && t != i + 5 && t != j + 5 && t != k + 5 ensures x[t] == y[t] {
      if t >= 5 { assert a[t - 5] == b[t - 5]; }
    }
    ThreeErrorsDetected(x, y, i + 5, j + 5, k + 5);
    WordsDetermineValues(front + a, front + b);
    assert (front + a)[5..] == a && (front + b)[5..] == b;
  }

  /** Three wrong characters anywhere never turn an address into another one, unless they take its version to or
      from 0. */
  lemma ThreeErrorsRejected(candidate: string, mistyped: string, i: nat, j: nat, k: nat)
    requires ValidAddress(candidate) && WellSplit(mistyped) && Hrp(mistyped) == Hrp(candidate)
    requires |Data(mistyped)| == |Data(candidate)|
    requires i < j < k < |Data(candidate)| && AgreeExceptAtThree(Data(candidate), Data(mistyped), i, j, k)
    ensures ValidAddress(mistyped) ==>
      Data(mistyped) == Data(candidate) || (Data(candidate)[0] == 0 <==> Data(mistyped)[0] != 0)
  {
    hide Fold, Words, ChecksumInput, Regroup, Regroupable, Lowered, MixedCase, SymbolsOf, AllSymbols, KnownHrp,
         LastPosition;
    if ValidAddress(mistyped) && (Data(candidate)[0] == 0 <==> Data(mistyped)[0] == 0) {
      ThreeErrorsInData(Hrp(candidate), Data(candidate), Data(mistyped), i, j, k);
    }
  }

  // ----- the one kind of error that passes -----

  /** One of the two data parts is of version 0 and the other is not, and they differ by the twin difference, in
      their first six symbols. */
  predicate Twins(a: seq<nat>, b: seq<nat>)
    requires InBase(32, a) && InBase(32, b)
  {
    && |a| == |b| && (|a| == 39 || |a| == 59)
    && (a[0] == 0 <==> b[0] != 0)
    && XorAll(Words(a), Words(b)) == Twin(|a|)
  }

  /** The checksums of two data parts differ by the fold of their difference. */
  lemma ChecksumDifference(hrp: string, a: seq<nat>, b: seq<nat>)
    requires KnownHrp(hrp) && InBase(32, a) && InBase(32, b) && |a| == |b|
    ensures Fold(0, XorAll(Words(a), Words(b))) ==
      Xor(Fold(1, Words(ChecksumInput(hrp, a))), Fold(1, Words(ChecksumInput(hrp, b))))
  {
    hide Fold, Words, ExpandedHrp, Xor;
    var front := Words(ExpandedHrp(hrp));
    WordsAppend(ExpandedHrp(hrp), a);
    WordsAppend(ExpandedHrp(hrp), b);
    FoldAppend(1, front, Words(a));
    FoldAppend(1, front, Words(b));
    FoldLinear(Fold(1, front), Fold(1, front), Words(a), Words(b));
    XorZero(Fold(1, front));
  }

  lemma DifferenceOfWords(a: seq<nat>, b: seq<nat>)
    requires InBase(32, a) && InBase(32, b) && |a| == |b|
    ensures var difference := XorAll(Words(a), Words(b));
      && Symbols(difference)
      && forall i | 0 <= i < |a| :: difference[i] == 0 <==> a[i] == b[i]
  {
    hide Word, Xor;
    forall i | 0 <= i < |a|
      ensures Xor(Words(a)[i], Words(b)[i]) < 32 && (Xor(Words(a)[i], Words(b)[i]) == 0 <==> a[i] == b[i])
    {
      XorBound(Words(a)[i], Words(b)[i]);
      XorCancel(Words(a)[i], Words(b)[i]);
      XorZero(Words(a)[i]);
      WordInjective(a[i]);
      WordInjective(b[i]);
    }
  }

  /** Few wrong symbols that take the version to or from 0 meet the other constant exactly for twins. */
  lemma ChangeIsTwin(a: seq<nat>, b: seq<nat>)
    requires InBase(32, a) && InBase(32, b) && FewErrors(a, b) && (|a| == 39 || |a| == 59)
    requires a[0] == 0 <==> b[0] != 0
    ensures Fold(0, XorAll(Words(a), Words(b))) == CHANGE <==> XorAll(Words(a), Words(b)) == Twin(|a|)
  {
    hide Fold, Words, Word, TwinDifference;
    var difference := XorAll(Words(a), Words(b));
    DifferenceOfWords(a, b);
    TwinMoves(|a|);
    if exists i: nat, j: nat | i < j < |a| && 6 <= j :: AgreeExceptAt(a, b, i, j) && a[j] != b[j] {
      var i: nat, j: nat :| i < j < |a| && 6 <= j && AgreeExceptAt(a, b, i, j) && a[j] != b[j];
      assert i == 0;
      NoTwinOfTwo(difference, j);
    } else {
      OnlyTwinInWindow(difference);
    }
  }

  lemma VersionZeroLength(hrp: string, data: seq<nat>)
    requires KnownHrp(hrp) && InBase(32, data) && ValidData(hrp, data) && data[0] == 0
    ensures |data| == 39 || |data| == 59
  {
    hide Fold, Words, Value, KnownHrp;
  }

  /** The padding of a program is its last symbol's affair. */
  lemma SamePadding(a: seq<nat>, b: seq<nat>)
    requires InBase(32, a) && InBase(32, b) && |a| == |b| && (|a| == 32 || |a| == 52)
    requires a[|a| - 1] == b[|b| - 1]
    ensures Regroupable(a) <==> Regroupable(b)
  {
    hide Value, Regroupable;
    PaddingMeans(a);
    PaddingMeans(b);
  }

  lemma PaddingMeans(a: seq<nat>)
    requires InBase(32, a) && (|a| == 32 || |a| == 52)
    ensures Regroupable(a) <==> |a| == 32 || a[51] % 16 == 0
  {
    hide Value;
    var n := |a| - 1;
    assert a == a[..n] + [a[n]];
    ValueSnoc(32, a[..n], a[n]);
    LastBits(Value(32, a[..n]), a[n]);
    assert (5 * |a|) % 8 == if |a| == 32 then 0 else 4;
  }

  lemma LastBits(high: nat, low: nat)
    ensures (high * 32 + low) % 16 == low % 16
  {
    assert high * 32 + low == 16 * (2 * high) + low;
  }

  lemma TwinVersion(a: seq<nat>, b: seq<nat>)
    requires InBase(32, a) && InBase(32, b) && Twins(a, b)
    ensures a[0] <= 16 && b[0] <= 16
    ensures forall i | 6 <= i < |a| :: a[i] == b[i]
    ensures forall i | 0 <= i < 6 :: a[i] != b[i]
  {
    hide Word, Fold;
    DifferenceOfWords(a, b);
    var twin := Twin(|a|);
    assert forall i | 0 <= i < 6 :: twin[i] == TwinDifference(|a|)[i] != 0;
    assert forall i | 6 <= i < |a| :: twin[i] == 0;
    WordInjective(a[0]);
    WordInjective(b[0]);
    assert Xor(Word(a[0]), Word(b[0])) == TwinDifference(|a|)[0];
    ZeroWord();
    XorZero(Word(a[0]));
    XorZero(Word(b[0]));
  }

  lemma ZeroWord()
    ensures Word(0) == 0
  {
  }

  lemma TwinIsValid(hrp: string, a: seq<nat>, b: seq<nat>)
    requires KnownHrp(hrp) && InBase(32, a) && InBase(32, b) && ValidData(hrp, a) && Twins(a, b)
    ensures ValidData(hrp, b)
  {
    hide Fold, Words, Word, Xor, Regroupable, ChecksumInput, TwinDifference, KnownHrp;
    var n := |a| - 6;
    TwinVersion(a, b);
    TwinMoves(|a|);
    ChecksumDifference(hrp, a, b);
    var x, y := Fold(1, Words(ChecksumInput(hrp, a))), Fold(1, Words(ChecksumInput(hrp, b)));
    XorCancel(x, y);
    Constants();
    SamePadding(a[1..n], b[1..n]);
  }

  lemma Constants()
    ensures Xor(BECH32, CHANGE) == BECH32M && Xor(BECH32M, CHANGE) == BECH32
    ensures Xor(BECH32, BECH32M) == CHANGE && Xor(BECH32M, BECH32) == CHANGE
  {
  }

  /** Two wrong characters anywhere, or any number of them within six consecutive ones, are found, except that a
      20- or 32-byte program of version 0 or another can turn into its twin. */
  lemma MistypedAddressRejected(candidate: string, mistyped: string)
    requires ValidAddress(candidate) && WellSplit(mistyped)
    requires Hrp(mistyped) == Hrp(candidate) && FewErrors(Data(candidate), Data(mistyped))
    ensures ValidAddress(mistyped) <==>
      Data(mistyped) == Data(candidate) || Twins(Data(candidate), Data(mistyped))
  {
    hide Fold, Words, FewErrors, ChecksumInput, Regroup, Regroupable, Lowered, MixedCase, SymbolsOf, Twin, KnownHrp,
         Xor;
    var hrp, a, b := Hrp(candidate), Data(candidate), Data(mistyped);
    if Twins(a, b) {
      TwinIsValid(hrp, a, b);
    }
    if ValidAddress(mistyped) {
      if a[0] == 0 <==> b[0] == 0 {
        FewErrorsDetected(hrp, a, b);
      } else {
        if a[0] == 0 { VersionZeroLength(hrp, a); } else { VersionZeroLength(hrp, b); }
        FewErrorsLength(a, b);
        ChecksumDifference(hrp, a, b);
        Constants();
        ChangeIsTwin(a, b);
      }
    }
  }

  /** Twins differ in six symbols, so two wrong ones are always found. */
  lemma TwoErrorsAreNoTwins(a: seq<nat>, b: seq<nat>, i: nat, j: nat)
    requires InBase(32, a) && InBase(32, b) && |a| == |b| && i < j < |a| && AgreeExceptAt(a, b, i, j)
    ensures !Twins(a, b)
  {
    hide Twins;
    TwinsDiffer(a, b);
    if |a| > 6 {
      var k := if i != 0 && j != 0 then 0 else if i != 1 && j != 1 then 1 else 2;
      assert a[k] == b[k];
    }
  }

  lemma TwinsDiffer(a: seq<nat>, b: seq<nat>)
    requires InBase(32, a) && InBase(32, b)
    ensures Twins(a, b) ==> |a| == |b| > 6 && forall k | 0 <= k < 6 :: a[k] != b[k]
  {
    hide Twin;
    if Twins(a, b) {
      TwinVersion(a, b);
    }
  }

  lemma FewErrorsLength(a: seq<nat>, b: seq<nat>)
    requires FewErrors(a, b)
    ensures |a| == |b|
  {
  }

  /** The symbols at this difference from the given ones. */
  function Apply(values: seq<nat>, difference: seq<bv32>): (moved: seq<nat>)
    requires InBase(32, values) && Symbols(difference) && |values| == |difference|
    ensures InBase(32, moved) && |moved| == |values|
    ensures XorAll(Words(values), Words(moved)) == difference
  {
    hide Word, Xor;
    var words := XorAll(Words(values), difference);
    forall i | 0 <= i < |words| ensures words[i] < 32 && Xor(Words(values)[i], words[i]) == difference[i] {
      XorBound(Words(values)[i], difference[i]);
      XorCancel(Words(values)[i], difference[i]);
    }
    WordsOfNumbers(words);
    assert XorAll(Words(values), words) == difference;
    Numbers(words)
  }

  lemma WellSplitText(hrp: string, data: seq<nat>)
    requires KnownHrp(hrp) && InBase(32, data) && 5 <= |data| <= 87
    ensures var text := hrp + "1" + TextOf(data); WellSplit(text) && Hrp(text) == hrp && Data(text) == data
  {
    hide LastPosition, MixedCase, Lowered, TextOf, SymbolsOf, AllSymbols;
    SplitOfEncoded(hrp, data);
    SymbolsOfText(data);
  }

  lemma FirstSymbolOfTwin(a: seq<nat>, b: seq<nat>)
    requires InBase(32, a) && InBase(32, b) && |a| == |b| && (|a| == 39 || |a| == 59) && a[0] == 0
    requires XorAll(Words(a), Words(b)) == Twin(|a|)
    ensures b[0] == if |a| == 39 then 2 else 14
  {
    hide Word, Xor;
    WordInjective(b[0]);
    ZeroWord();
    XorZero(Word(b[0]));
    assert XorAll(Words(a), Words(b))[0] == Word(b[0]);
  }

  /** The failing inputs: every valid address of version 0 has a valid twin of version 2 or 14. */
  lemma EveryVersionZeroHasTwin(candidate: string) returns (mistyped: string)
    requires ValidAddress(candidate) && Data(candidate)[0] == 0
    ensures ValidAddress(mistyped) && Hrp(mistyped) == Hrp(candidate)
    ensures Twins(Data(candidate), Data(mistyped)) && FewErrors(Data(candidate), Data(mistyped))
    ensures Data(mistyped)[0] == if |Data(candidate)| == 39 then 2 else 14
  {
    hide ValidData, Words, Twin, Data, Hrp, WellSplit, KnownHrp, TextOf;
    var hrp, a := Hrp(candidate), Data(candidate);
    VersionZeroLength(hrp, a);
    var b := Apply(a, Twin(|a|));
    FirstSymbolOfTwin(a, b);
    TwinVersion(a, b);
    assert AgreeOutsideWindow(a, b, 0);
    TwinIsValid(hrp, a, b);
    WellSplitText(hrp, b);
    mistyped := hrp + "1" + TextOf(b);
  }
}
