/** The constant-space decimal scanner, and the grammar of signs, points, exponents and
    surrounding whitespace that it decides. A byte of the source is a char here. */
module Decimal {
  import opened Options
  import opened Radix

  const U64_LIMIT: nat := 0x1_0000_0000_0000_0000

  datatype DecimalState =
    | Leading | Sign | Integer | BarePoint | IntegerPoint | Fraction
    | Exponent | ExponentSign | ExponentDigits | Trailing | Invalid

  datatype DecimalGrammar =
    | CanonicalPositiveU64Decimal | Zero | NoncanonicalDecimal | OutOfU64Range | Other

  predicate IsSpace(c: char) { c == ' ' || c == '\t' || c == '\n' || c == '\r' }

  predicate IsDigit(c: char) { '0' <= c <= '9' }

  predicate IsSign(c: char) { c == '+' || c == '-' }

  function DigitValue(c: char): (d: nat)
    requires IsDigit(c)
    ensures d < 10
  {
    c as nat - '0' as nat
  }

  /** The bytes by their numbers: space, tab, line feed and carriage return, plus and minus, and the ten digits. */
  lemma CharactersListed(c: char)
    ensures IsSpace(c) <==> c as int == 32 || c as int == 9 || c as int == 10 || c as int == 13
    ensures IsSign(c) <==> c as int == 43 || c as int == 45
    ensures IsDigit(c) <==> c in "0123456789"
    ensures IsDigit(c) ==> DigitValue(c) < |"0123456789"| && "0123456789"[DigitValue(c)] == c
  {
  }

  // ----- one byte at a time -----

  datatype Scan = Scan(state: DecimalState, noncanonical: bool, leadingZero: bool, value: Option<nat>)

  const START: Scan := Scan(Leading, false, false, None)

  /** Multiplication by ten and addition, with the overflow checks of the source. */
  function Accumulate(value: Option<nat>, digit: nat): Option<nat>
  {
    match value
    case None => None
    case Some(v) =>
      if v * 10 >= U64_LIMIT then None
      else if v * 10 + digit >= U64_LIMIT then None
      else Some(v * 10 + digit)
  }

  predicate Accepting(state: DecimalState)
  {
    state in {Integer, IntegerPoint, Fraction, ExponentDigits, Trailing}
  }

  function Pushed(s: Scan, byte: char): Scan
  {
    if s.state == Leading && IsSpace(byte) then s.(noncanonical := true)
    else if s.state == Leading && IsSign(byte) then s.(noncanonical := true, state := Sign)
    else if s.state in {Leading, Sign} && IsDigit(byte) then
      s.(leadingZero := byte == '0', value := Some(DigitValue(byte)), state := Integer)
    else if s.state in {Leading, Sign} && byte == '.' then s.(noncanonical := true, state := BarePoint)
    else if s.state == Integer && IsDigit(byte) then
      s.(noncanonical := s.noncanonical || s.leadingZero, value := Accumulate(s.value, DigitValue(byte)))
    else if s.state == Integer && byte == '.' then s.(noncanonical := true, state := IntegerPoint)
    else if s.state in {BarePoint, IntegerPoint, Fraction} && IsDigit(byte) then s.(state := Fraction)
    else if s.state in {Integer, IntegerPoint, Fraction} && (byte == 'e' || byte == 'E') then
      s.(noncanonical := true, state := Exponent)
    else if s.state == Exponent && IsSign(byte) then s.(state := ExponentSign)
    else if s.state in {Exponent, ExponentSign, ExponentDigits} && IsDigit(byte) then s.(state := ExponentDigits)
    else if Accepting(s.state) && IsSpace(byte) then s.(noncanonical := true, state := Trailing)
    else s.(state := Invalid)
  }

  function Scanned(text: string): Scan
  {
    if |text| == 0 then START else Pushed(Scanned(text[..|text| - 1]), text[|text| - 1])
  }

  function Finished(s: Scan): DecimalGrammar
  {
    if !Accepting(s.state) then Other
    else if s.noncanonical then NoncanonicalDecimal
    else match s.value
      case None => OutOfU64Range
      case Some(v) => if v == 0 then Zero else CanonicalPositiveU64Decimal
  }

  function Classify(text: string): DecimalGrammar
  {
    Finished(Scanned(text))
  }

  /** The scanner of the source. */
  class DecimalScanner {
    var state: DecimalState
    var noncanonical: bool
    var leadingZero: bool
    var value: Option<nat>

    function View(): Scan
      reads this
    {
      Scan(state, noncanonical, leadingZero, value)
    }

    constructor ()
      ensures View() == START
    {
      state, noncanonical, leadingZero, value := Leading, false, false, None;
    }

    method FirstDigit(byte: char)
      requires IsDigit(byte)
      modifies this
      ensures View() == old(View()).(leadingZero := byte == '0', value := Some(DigitValue(byte)), state := Integer)
    {
      leadingZero := byte == '0';
      value := Some(DigitValue(byte));
      state := Integer;
    }

    method Push(byte: char)
      modifies this
      ensures View() == Pushed(old(View()), byte)
    {
      if state == Leading && IsSpace(byte) {
        noncanonical := true;
      } else if state == Leading && IsSign(byte) {
        noncanonical := true;
        state := Sign;
      } else if state in {Leading, Sign} && IsDigit(byte) {
        FirstDigit(byte);
      } else if state in {Leading, Sign} && byte == '.' {
        noncanonical := true;
        state := BarePoint;
      } else if state == Integer && IsDigit(byte) {
        noncanonical := noncanonical || leadingZero;
        value := Accumulate(value, DigitValue(byte));
      } else if state == Integer && byte == '.' {
        noncanonical := true;
        state := IntegerPoint;
      } else if state in {BarePoint, IntegerPoint, Fraction} && IsDigit(byte) {
        state := Fraction;
      } else if state in {Integer, IntegerPoint, Fraction} && (byte == 'e' || byte == 'E') {
        noncanonical := true;
        state := Exponent;
      } else if state == Exponent && IsSign(byte) {
        state := ExponentSign;
      } else if state in {Exponent, ExponentSign, ExponentDigits} && IsDigit(byte) {
        state := ExponentDigits;
      } else if Accepting(state) && IsSpace(byte) {
        noncanonical := true;
        state := Trailing;
      } else {
        state := Invalid;
      }
    }

    function Finish(): DecimalGrammar
      reads this
    {
      Finished(View())
    }
  }

  method ClassifyDecimal(text: string) returns (grammar: DecimalGrammar)
    ensures grammar == Classify(text)
  {
    var scanner := new DecimalScanner();
    for i := 0 to |text|
      invariant scanner.View() == Scanned(text[..i])
    {
      assert text[..i + 1][..i] == text[..i];
      scanner.Push(text[i]);
    }
    assert text[..|text|] == text;
    grammar := scanner.Finish();
  }

  // ----- the declarative grammar -----

  predicate AllSpaces(s: string) { forall i | 0 <= i < |s| :: IsSpace(s[i]) }

  predicate AllDigits(s: string) { forall i | 0 <= i < |s| :: IsDigit(s[i]) }

  predicate OptionalSign(s: string) { |s| == 0 || (|s| == 1 && IsSign(s[0])) }

  /** Everything from the exponent marker on: `e` or `E`, a sign, digits. */
  datatype Power10 = NoPower | Power10(marker: char, sign: string, digits: string)
  {
    predicate WellFormed()
    {
      Power10? ==> (marker == 'e' || marker == 'E') && OptionalSign(sign) && AllDigits(digits)
    }

    function Text(): string
    {
      if NoPower? then "" else [marker] + sign + digits
    }
  }

  datatype Numeral = Numeral(lead: string, sign: string, whole: string, point: string, fraction: string,
    power: Power10, trail: string)
  {
    predicate WellFormed()
    {
      && AllSpaces(lead) && OptionalSign(sign) && AllDigits(whole)
      && (point == "" || point == ".") && AllDigits(fraction) && (point == "" ==> fraction == "")
      && power.WellFormed() && AllSpaces(trail)
    }

    /** There is a digit in the mantissa, and one in the exponent if there is an exponent. */
    predicate Complete()
    {
      WellFormed() && (whole != "" || fraction != "") && (power.Power10? ==> power.digits != "")
    }

    function Text(): string
    {
      lead + sign + whole + point + fraction + power.Text() + trail
    }
  }

  /** A decimal literal: optional sign, digits with an optional point, optional exponent,
      and whitespace around all of it. */
  ghost predicate IsDecimal(text: string)
  {
    exists numeral: Numeral :: numeral.Complete() && numeral.Text() == text
  }

  function DigitsOf(text: string): (digits: seq<nat>)
    requires AllDigits(text)
    ensures |digits| == |text| && InBase(10, digits)
    ensures forall i | 0 <= i < |text| :: digits[i] == DigitValue(text[i])
  {
    seq(|text|, i requires 0 <= i < |text| => DigitValue(text[i]))
  }

  function DigitText(digits: seq<nat>): (text: string)
    requires InBase(10, digits)
    ensures |text| == |digits| && AllDigits(text)
    ensures forall i | 0 <= i < |digits| :: DigitValue(text[i]) == digits[i]
  {
    seq(|digits|, i requires 0 <= i < |digits| => (digits[i] + '0' as nat) as char)
  }

  /** The number a digit string denotes. */
  function Number(text: string): nat
    requires AllDigits(text)
  {
    Value(10, DigitsOf(text))
  }

  /** The decimal print of a number. */
  function Print(n: nat): (text: string)
    ensures AllDigits(text) && text != ""
  {
    if n == 0 then "0" else DigitText(Minimal(10, n))
  }

  predicate Plain(text: string)
  {
    text != "" && AllDigits(text) && (|text| > 1 ==> text[0] != '0')
  }

  lemma NumberPrint(n: nat)
    ensures Plain(Print(n)) && Number(Print(n)) == n
  {
    if n == 0 {
      assert DigitsOf("0") == [0];
      ValueSnoc(10, [], 0);
    } else {
      assert DigitsOf(Print(n)) == Minimal(10, n);
    }
  }

  lemma TextOfDigits(text: string)
    requires AllDigits(text)
    ensures DigitText(DigitsOf(text)) == text
  {
  }

  lemma ZeroText(text: string)
    requires Plain(text) && text[0] == '0'
    ensures text == "0" && Number(text) == 0
  {
    assert DigitsOf(text) == [0];
    ValueSnoc(10, [], 0);
  }

  lemma PrintNumber(text: string)
    requires Plain(text)
    ensures Print(Number(text)) == text
  {
    hide Value, DigitText, Minimal;
    if text[0] == '0' {
      ZeroText(text);
    } else {
      MinimalUnique(10, DigitsOf(text));
      LeadingNonzero(10, DigitsOf(text));
      TextOfDigits(text);
    }
  }

  /** A text is plain exactly when it is the print of a number. */
  lemma PlainIffPrint(text: string)
    ensures Plain(text) <==> exists n: nat :: text == Print(n)
  {
    hide Print;
    if Plain(text) {
      PrintNumber(text);
    }
    if n: nat :| text == Print(n) {
      NumberPrint(n);
    }
  }

  // ----- the scanner decides the grammar: from states to numerals -----

  /** What a numeral under construction looks like in each state of the scanner. */
  ghost predicate InState(state: DecimalState, n: Numeral)
  {
    n.WellFormed() &&
    match state
    case Leading => n.sign == "" && n.whole == "" && n.point == "" && n.power.NoPower? && n.trail == ""
    case Sign => n.sign != "" && n.whole == "" && n.point == "" && n.power.NoPower? && n.trail == ""
    case Integer => n.whole != "" && n.point == "" && n.power.NoPower? && n.trail == ""
    case BarePoint => n.whole == "" && n.point != "" && n.fraction == "" && n.power.NoPower? && n.trail == ""
    case IntegerPoint => n.whole != "" && n.point != "" && n.fraction == "" && n.power.NoPower? && n.trail == ""
    case Fraction => n.fraction != "" && n.power.NoPower? && n.trail == ""
    case Exponent => (n.whole != "" || n.fraction != "") && n.power.Power10? && n.power.sign == ""
      && n.power.digits == "" && n.trail == ""
    case ExponentSign => (n.whole != "" || n.fraction != "") && n.power.Power10? && n.power.sign != ""
      && n.power.digits == "" && n.trail == ""
    case ExponentDigits => (n.whole != "" || n.fraction != "") && n.power.Power10? && n.power.digits != ""
      && n.trail == ""
    case Trailing => n.Complete() && n.trail != ""
    case Invalid => false
  }

  /** The numeral after one more byte, given the state that byte leads to. */
  ghost function Grown(state: DecimalState, n: Numeral, c: char): Numeral
  {
    match state
    case Leading => n.(lead := n.lead + [c])
    case Sign => n.(sign := [c])
    case Integer => n.(whole := n.whole + [c])
    case BarePoint => n.(point := [c])
    case IntegerPoint => n.(point := [c])
    case Fraction => n.(fraction := n.fraction + [c])
    case Exponent => n.(power := Power10(c, "", ""))
    case ExponentSign => if n.power.Power10? then n.(power := n.power.(sign := [c])) else n
    case ExponentDigits => if n.power.Power10? then n.(power := n.power.(digits := n.power.digits + [c])) else n
    case Trailing => n.(trail := n.trail + [c])
    case Invalid => n
  }

  /** Which states a byte can lead to, and from where. */
  predicate Edge(source: DecimalState, c: char, target: DecimalState)
  {
    match target
    case Leading => source == Leading && IsSpace(c)
    case Sign => source == Leading && IsSign(c)
    case Integer => source in {Leading, Sign, Integer} && IsDigit(c)
    case BarePoint => source in {Leading, Sign} && c == '.'
    case IntegerPoint => source == Integer && c == '.'
    case Fraction => source in {BarePoint, IntegerPoint, Fraction} && IsDigit(c)
    case Exponent => source in {Integer, IntegerPoint, Fraction} && (c == 'e' || c == 'E')
    case ExponentSign => source == Exponent && IsSign(c)
    case ExponentDigits => source in {Exponent, ExponentSign, ExponentDigits} && IsDigit(c)
    case Trailing => Accepting(source) && IsSpace(c)
    case Invalid => true
  }

  lemma PushedEdge(s: Scan, c: char, target: DecimalState)
    requires target != Invalid
    ensures Pushed(s, c).state == target <==> Edge(s.state, c, target)
  {
  }

  lemma GrownInState(source: DecimalState, n: Numeral, c: char, target: DecimalState)
    requires InState(source, n) && Edge(source, c, target) && target != Invalid
    ensures InState(target, Grown(target, n, c))
  {
  }

  lemma GrownMantissa(source: DecimalState, n: Numeral, c: char, target: DecimalState)
    requires InState(source, n) && Edge(source, c, target)
    requires target in {Leading, Sign, Integer, BarePoint, IntegerPoint, Fraction}
    ensures Grown(target, n, c).Text() == n.Text() + [c]
  {
    hide AllSpaces, AllDigits;
    assert n.power.Text() == "" && n.trail == "";
    if target == Leading {
      assert n.Text() == n.lead;
    } else if target == Sign {
      assert n.Text() == n.lead && n.sign == "";
    } else if target == Integer {
      assert n.Text() == n.lead + n.sign + n.whole;
    } else if target == Fraction {
      assert n.Text() == n.lead + n.sign + n.whole + n.point + n.fraction;
    } else {
      assert n.Text() == n.lead + n.sign + n.whole;
    }
  }

  lemma GrownTail(source: DecimalState, n: Numeral, c: char, target: DecimalState)
    requires InState(source, n) && Edge(source, c, target)
    requires target in {Exponent, ExponentSign, ExponentDigits, Trailing}
    ensures Grown(target, n, c).Text() == n.Text() + [c]
  {
    hide AllSpaces, AllDigits;
    var front := n.lead + n.sign + n.whole + n.point + n.fraction;
    var g := Grown(target, n, c);
    if target == Trailing {
      assert n.Text() == front + n.power.Text() + n.trail;
    } else {
      assert g.power.Text() == n.power.Text() + [c];
      assert n.Text() == front + n.power.Text() && g.Text() == front + g.power.Text();
    }
  }

  lemma {:induction false} ScannedNumeral(text: string) returns (n: Numeral)
    requires Scanned(text).state != Invalid
    ensures InState(Scanned(text).state, n) && n.Text() == text
  {
    hide Pushed, InState, Grown;
    if |text| == 0 {
      EmptyNumeral();
      n := Numeral("", "", "", "", "", NoPower, "");
    } else {
      var front, last := text[..|text| - 1], text[|text| - 1];
      assert Scanned(front).state != Invalid by { InvalidStays(Scanned(front), last); }
      var m := ScannedNumeral(front);
      n := Grown(Scanned(text).state, m, last);
      PushedEdge(Scanned(front), last, Scanned(text).state);
      GrownInState(Scanned(front).state, m, last, Scanned(text).state);
      if Scanned(text).state in {Exponent, ExponentSign, ExponentDigits, Trailing} {
        GrownTail(Scanned(front).state, m, last, Scanned(text).state);
      } else {
        GrownMantissa(Scanned(front).state, m, last, Scanned(text).state);
      }
    }
  }

  lemma EmptyNumeral()
    ensures InState(Leading, Numeral("", "", "", "", "", NoPower, ""))
    ensures Numeral("", "", "", "", "", NoPower, "").Text() == ""
  {
  }

  lemma InvalidStays(s: Scan, c: char)
    ensures s.state == Invalid ==> Pushed(s, c).state == Invalid
  {
  }

  // ----- the scanner decides the grammar: from numerals to states -----

  function Next(state: DecimalState, c: char): DecimalState
  {
    Pushed(Scan(state, false, false, None), c).state
  }

  lemma NextIsPushed(s: Scan, c: char)
    ensures Pushed(s, c).state == Next(s.state, c)
  {
    hide Accumulate;
  }

  function Run(state: DecimalState, text: string): DecimalState
  {
    if |text| == 0 then state else Next(Run(state, text[..|text| - 1]), text[|text| - 1])
  }

  lemma {:induction false} RunIsScanned(text: string)
    ensures Run(Leading, text) == Scanned(text).state
  {
    hide Pushed, Next;
    if |text| > 0 {
      RunIsScanned(text[..|text| - 1]);
      NextIsPushed(Scanned(text[..|text| - 1]), text[|text| - 1]);
    }
  }

  lemma {:induction false} RunAppend(state: DecimalState, a: string, b: string)
    ensures Run(state, a + b) == Run(Run(state, a), b)
  {
    hide Next;
    if |b| == 0 {
      assert a + b == a;
    } else {
      RunAppend(state, a, b[..|b| - 1]);
      assert (a + b)[..|a + b| - 1] == a + b[..|b| - 1];
    }
  }

  function AfterDigits(state: DecimalState): DecimalState
  {
    if state in {Leading, Sign, Integer} then Integer
    else if state in {BarePoint, IntegerPoint, Fraction} then Fraction
    else ExponentDigits
  }

  lemma {:induction false} RunDigits(state: DecimalState, text: string)
    requires AllDigits(text) && state != Trailing && state != Invalid
    ensures Run(state, text) == if text == "" then state else AfterDigits(state)
  {
    if |text| > 0 { RunDigits(state, text[..|text| - 1]); }
  }

  lemma {:induction false} RunSpaces(state: DecimalState, text: string)
    requires AllSpaces(text) && (state == Leading || Accepting(state))
    ensures Run(state, text) == if text == "" || state == Leading then state else Trailing
  {
    if |text| > 0 { RunSpaces(state, text[..|text| - 1]); }
  }

  lemma RunSingle(state: DecimalState, c: char)
    ensures Run(state, [c]) == Next(state, c)
  {
    assert [c][..0] == "";
  }

  lemma RunSign(text: string)
    requires OptionalSign(text)
    ensures Run(Leading, text) == if text == "" then Leading else Sign
    ensures Run(Exponent, text) == if text == "" then Exponent else ExponentSign
  {
    if text != "" {
      assert text == [text[0]];
      RunSingle(Leading, text[0]);
      RunSingle(Exponent, text[0]);
    }
  }

  lemma RunMantissa(n: Numeral)
    requires n.Complete()
    ensures Run(Leading, n.lead + n.sign + n.whole + n.point + n.fraction) in {Integer, IntegerPoint, Fraction}
  {
    hide Run, Next;
    RunAppend(Leading, n.lead, n.sign);
    RunAppend(Leading, n.lead + n.sign, n.whole);
    RunAppend(Leading, n.lead + n.sign + n.whole, n.point);
    RunAppend(Leading, n.lead + n.sign + n.whole + n.point, n.fraction);
    RunSpaces(Leading, n.lead);
    RunSign(n.sign);
    var q := Run(Leading, n.sign);
    RunDigits(q, n.whole);
    var r := Run(q, n.whole);
    RunPoint(r, n.point);
    RunDigits(Run(r, n.point), n.fraction);
  }

  lemma RunPoint(state: DecimalState, text: string)
    requires state in {Leading, Sign, Integer} && (text == "" || text == ".")
    ensures Run(state, text) == if text == "" then state else if state == Integer then IntegerPoint else BarePoint
  {
    if text == "." { RunSingle(state, '.'); }
  }

  lemma RunPower(state: DecimalState, power: Power10)
    requires state in {Integer, IntegerPoint, Fraction}
    requires power.WellFormed() && (power.Power10? ==> power.digits != "")
    ensures Run(state, power.Text()) == if power.NoPower? then state else ExponentDigits
  {
    hide Run, Next;
    if power.Power10? {
      RunMarker(state, power.marker);
      RunAppend(state, [power.marker], power.sign);
      RunAppend(state, [power.marker] + power.sign, power.digits);
      RunSign(power.sign);
      RunDigits(Run(Exponent, power.sign), power.digits);
    } else {
      RunNothing(state);
    }
  }

  lemma RunMarker(state: DecimalState, marker: char)
    requires state in {Integer, IntegerPoint, Fraction} && (marker == 'e' || marker == 'E')
    ensures Run(state, [marker]) == Exponent
  {
    RunSingle(state, marker);
  }

  lemma RunNothing(state: DecimalState)
    ensures Run(state, "") == state
  {
  }

  lemma CompleteIsAccepted(n: Numeral)
    requires n.Complete()
    ensures Accepting(Scanned(n.Text()).state)
  {
    hide Run, Next, Scanned;
    var mantissa := n.lead + n.sign + n.whole + n.point + n.fraction;
    RunMantissa(n);
    RunAppend(Leading, mantissa, n.power.Text());
    RunAppend(Leading, mantissa + n.power.Text(), n.trail);
    RunPower(Run(Leading, mantissa), n.power);
    RunSpaces(Run(Leading, mantissa + n.power.Text()), n.trail);
    RunIsScanned(n.Text());
  }

  /** The scanner ends in an accepting state exactly on the texts of the grammar. */
  lemma AcceptedIffDecimal(text: string)
    ensures Accepting(Scanned(text).state) <==> IsDecimal(text)
  {
    hide Scanned;
    if Accepting(Scanned(text).state) {
      var n := ScannedNumeral(text);
      assert n.Complete();
    }
    if n: Numeral :| n.Complete() && n.Text() == text {
      CompleteIsAccepted(n);
    }
  }

  // ----- the canonical classes -----

  /** What the scanner remembers of an all-digit text. */
  lemma {:induction false} ScannedDigits(text: string)
    requires text != "" && AllDigits(text)
    ensures var s := Scanned(text);
      && s.state == Integer && s.leadingZero == (text[0] == '0')
      && s.noncanonical == (|text| > 1 && text[0] == '0')
      && s.value == if Number(text) < U64_LIMIT then Some(Number(text)) else None
  {
    hide Value, Scanned;
    var front, last := text[..|text| - 1], text[|text| - 1];
    assert text == front + [last];
    NumberSnoc(front, last);
    ScannedLast(text);
    if front == "" {
      EmptyNumber(front);
    } else {
      ScannedDigits(front);
    }
  }

  lemma EmptyNumber(text: string)
    requires text == ""
    ensures Number(text) == 0 && Scanned(text) == Scan(Leading, false, false, None)
  {
  }

  lemma ScannedLast(text: string)
    requires text != ""
    ensures Scanned(text) == Pushed(Scanned(text[..|text| - 1]), text[|text| - 1])
  {
  }

  lemma NumberSnoc(front: string, last: char)
    requires AllDigits(front) && IsDigit(last)
    ensures AllDigits(front + [last]) && Number(front + [last]) == Number(front) * 10 + DigitValue(last)
    ensures Number("") == 0
  {
    hide Value;
    assert DigitsOf(front + [last]) == DigitsOf(front) + [DigitValue(last)];
    ValueSnoc(10, DigitsOf(front), DigitValue(last));
    EmptyValue();
  }

  lemma EmptyValue()
    ensures Number("") == 0
  {
  }

  /** Only unsigned digits without a leading zero leave the scanner canonical. */
  lemma {:induction false} CanonicalMeansPlain(text: string)
    ensures var s := Scanned(text);
      && (s.state == Leading && !s.noncanonical ==> text == "")
      && (s.state == Integer && !s.noncanonical ==> Plain(text))
      && (s.state in {Sign, BarePoint, IntegerPoint, Fraction, Exponent, ExponentSign, ExponentDigits, Trailing} ==>
        s.noncanonical)
      && (s.state == Integer && !s.noncanonical ==> s.leadingZero == (text[0] == '0'))
  {
    if |text| > 0 {
      CanonicalMeansPlain(text[..|text| - 1]);
      assert text == text[..|text| - 1] + [text[|text| - 1]];
    }
  }

  /** The five classes, in terms of the grammar and of printed numbers. */
  lemma ClassifyMeans(text: string)
    ensures Classify(text) == Other <==> !IsDecimal(text)
    ensures Classify(text) == NoncanonicalDecimal <==> IsDecimal(text) && !(exists n: nat :: text == Print(n))
    ensures Classify(text) == Zero <==> text == "0"
    ensures Classify(text) == CanonicalPositiveU64Decimal
       <==> exists n: nat :: 1 <= n <= 18446744073709551615 && text == Print(n)
    ensures Classify(text) == OutOfU64Range <==> exists n: nat :: n > 18446744073709551615 && text == Print(n)
  {
    hide Scanned, Print, IsDecimal, Number;
    AcceptedIffDecimal(text);
    CanonicalMeansPlain(text);
    PlainIffPrint(text);
    if Plain(text) {
      ScannedDigits(text);
      PrintNumber(text);
      assert text == Print(Number(text));
    }
    forall n: nat | text == Print(n) ensures Number(Print(n)) == n { NumberPrint(n); }
    ZeroIsPrinted();
  }

  lemma ZeroIsPrinted()
    ensures Print(0) == "0"
  {
  }

  /** Parsing an identifier and printing a positive 64-bit number undo each other. */
  lemma IdentifierRoundTrip(n: nat)
    requires 1 <= n <= 18446744073709551615
    ensures Classify(Print(n)) == CanonicalPositiveU64Decimal && Number(Print(n)) == n
  {
    ClassifyMeans(Print(n));
    NumberPrint(n);
  }

  lemma IdentifierIsPrint(text: string)
    requires Classify(text) == CanonicalPositiveU64Decimal
    ensures AllDigits(text) && 1 <= Number(text) <= 18446744073709551615 && Print(Number(text)) == text
  {
    ClassifyMeans(text);
    var n: nat :| 1 <= n <= 18446744073709551615 && text == Print(n);
    NumberPrint(n);
  }
}
