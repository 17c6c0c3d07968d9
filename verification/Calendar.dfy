/** Calendar timestamps: their grammar, and days counted in the proleptic Gregorian calendar. */
module Calendar {
  import opened Decimal
  import opened Options
  import opened Radix

  datatype Separator = UpperT | Space

  datatype Precision = Seconds | Milliseconds | Microseconds | Nanoseconds

  datatype Zone = UpperZ | ColonOffset | Unzoned

  datatype TimestampGrammar = Unclassified | CalendarTime(separator: Separator, precision: Precision, zone: Zone)

  // ----- the classification of the source -----

  function Component(bytes: string): Option<nat>
  {
    if AllDigits(bytes) then Some(Number(bytes)) else None
  }

  predicate IsLeap(year: nat)
  {
    year % 4 == 0 && (year % 100 != 0 || year % 400 == 0)
  }

  function LastDay(year: nat, month: nat): Option<nat>
  {
    if month in {1, 3, 5, 7, 8, 10, 12} then Some(31)
    else if month in {4, 6, 9, 11} then Some(30)
    else if month == 2 && IsLeap(year) then Some(29)
    else if month == 2 then Some(28)
    else None
  }

  /** The three fraction widths, tried in the order of the source. */
  function FractionWidth(fraction: string): (width: Option<nat>)
    ensures width.Some? ==> width.value in {3, 6, 9} && width.value <= |fraction|
  {
    if Fits(fraction, 3) then Some(3)
    else if Fits(fraction, 6) then Some(6)
    else if Fits(fraction, 9) then Some(9)
    else None
  }

  predicate Fits(fraction: string, width: nat)
  {
    width <= |fraction| && AllDigits(fraction[..width]) && !(width < |fraction| && IsDigit(fraction[width]))
  }

  function PrecisionOf(width: nat): Precision
  {
    if width == 3 then Milliseconds else if width == 6 then Microseconds else Nanoseconds
  }

  function ZoneOf(suffix: string): Option<Zone>
  {
    if suffix == "" then Some(Unzoned)
    else if suffix == "Z" then Some(UpperZ)
    else if |suffix| == 6 && IsSign(suffix[0]) && suffix[3] == ':' then
      var hours, minutes := Component(suffix[1..3]), Component(suffix[4..6]);
      if hours.None? || minutes.None? then None
      else if hours.value > 23 || minutes.value > 59 then None
      else if suffix[0] == '-' && hours.value == 0 && minutes.value == 0 then None
      else Some(ColonOffset)
    else None
  }

  datatype Moment = Moment(year: nat, month: nat, day: nat, hour: nat, minute: nat, second: nat)

  predicate ValidDate(year: nat, month: nat, day: nat)
  {
    year >= 1 && LastDay(year, month).Some? && 1 <= day <= LastDay(year, month).value
  }

  predicate ValidMoment(m: Moment)
  {
    m.year <= 9999 && ValidDate(m.year, m.month, m.day) && m.hour <= 23 && m.minute <= 59 && m.second <= 59
  }

  /** The fields of the first nineteen bytes, when they are a date and a time of day. */
  function Fields(base: string): (m: Option<Moment>)
    requires |base| == 19
  {
    var year, month, day := Component(base[..4]), Component(base[5..7]), Component(base[8..10]);
    var hour, minute, second := Component(base[11..13]), Component(base[14..16]), Component(base[17..19]);
    if base[4] != '-' || base[7] != '-' || base[13] != ':' || base[16] != ':' then None
    else if year.None? || month.None? || day.None? || hour.None? || minute.None? || second.None? then None
    else if LastDay(year.value, month.value).None? then None
    else if year.value == 0 || day.value == 0 || day.value > LastDay(year.value, month.value).value
      || hour.value > 23 || minute.value > 59 || second.value > 59 then None
    else Some(Moment(year.value, month.value, day.value, hour.value, minute.value, second.value))
  }

  function SeparatorOf(c: char): Option<Separator>
  {
    if c == 'T' then Some(UpperT) else if c == ' ' then Some(Space) else None
  }

  /** The precision and the zone, after the first nineteen bytes. */
  function SuffixGrammar(separator: Separator, suffix: string): Option<TimestampGrammar>
  {
    if suffix != "" && suffix[0] == '.' then
      var fraction := suffix[1..];
      var width := FractionWidth(fraction);
      if width.None? then None
      else
        var zone := ZoneOf(fraction[width.value..]);
        if zone.None? then None else Some(CalendarTime(separator, PrecisionOf(width.value), zone.value))
    else
      var zone := ZoneOf(suffix);
      if zone.None? then None else Some(CalendarTime(separator, Seconds, zone.value))
  }

  function CalendarGrammar(bytes: string): Option<TimestampGrammar>
  {
    if |bytes| < 19 then None
    else if SeparatorOf(bytes[10]).None? || Fields(bytes[..19]).None? then None
    else SuffixGrammar(SeparatorOf(bytes[10]).value, bytes[19..])
  }

  function ClassifyTimestamp(text: string): TimestampGrammar
  {
    match CalendarGrammar(text)
    case Some(grammar) => grammar
    case None => Unclassified
  }

  // ----- the declarative form: printed moments -----

  lemma HundredFits(n: nat)
    requires n < 100
    ensures n < Power(10, 2)
  {
    assert Power(10, 2) == 100;
  }

  function Padded(n: nat, width: nat): (text: string)
    requires n < Power(10, width)
    ensures |text| == width && AllDigits(text)
  {
    DigitText(Fixed(10, n, width))
  }

  function Two(n: nat): (text: string)
    requires n < 100
    ensures |text| == 2 && AllDigits(text)
  {
    HundredFits(n);
    Padded(n, 2)
  }

  function Four(n: nat): (text: string)
    requires n < 10000
    ensures |text| == 4 && AllDigits(text)
  {
    assert Power(10, 2) == 100 && Power(10, 4) == 10000;
    Padded(n, 4)
  }

  function DigitChar(d: nat): char
    requires d < 10
  {
    (d + '0' as nat) as char
  }

  lemma OneMoreDigit(n: nat, width: nat)
    requires n < Power(10, width) && width > 0
    ensures n / 10 < Power(10, width - 1)
    ensures Padded(n, width) == Padded(n / 10, width - 1) + [DigitChar(n % 10)]
  {
    QuotientBound(10, n, Power(10, width - 1));
    var front := Fixed(10, n / 10, width - 1);
    assert DigitText(front + [n % 10]) == DigitText(front) + [DigitChar(n % 10)];
  }

  /** The printed fields, digit by digit. */
  lemma TwoDigits(n: nat)
    requires n < 100
    ensures Two(n) == [DigitChar(n / 10), DigitChar(n % 10)]
  {
    hide Padded, DigitText, Fixed;
    HundredFits(n);
    OneMoreDigit(n, 2);
    OneMoreDigit(n / 10, 1);
    assert Padded(n / 10 / 10, 0) == [];
  }

  lemma FourDigits(n: nat)
    requires n < 10000
    ensures Four(n) == [DigitChar(n / 1000), DigitChar(n / 100 % 10), DigitChar(n / 10 % 10), DigitChar(n % 10)]
  {
    hide Padded, DigitText, Fixed;
    assert Power(10, 2) == 100 && Power(10, 4) == 10000;
    OneMoreDigit(n, 4);
    OneMoreDigit(n / 10, 3);
    OneMoreDigit(n / 10 / 10, 2);
    OneMoreDigit(n / 10 / 10 / 10, 1);
    assert Padded(n / 10 / 10 / 10 / 10, 0) == [];
  }

  predicate SmallFields(m: Moment)
  {
    m.year < 10000 && m.month < 100 && m.day < 100 && m.hour < 100 && m.minute < 100 && m.second < 100
  }

  function SeparatorChar(separator: Separator): char
  {
    if separator == UpperT then 'T' else ' '
  }

  /** Zero-padded calendar print, nineteen characters. */
  function Printed(m: Moment, separator: char): (text: string)
    requires SmallFields(m)
    ensures |text| == 19
  {
    Four(m.year) + "-" + Two(m.month) + "-" + Two(m.day) + [separator]
    + Two(m.hour) + ":" + Two(m.minute) + ":" + Two(m.second)
  }

  lemma ComponentPadded(text: string, n: nat, width: nat)
    requires n < Power(10, width) && |text| == width
    ensures Component(text) == Some(n) <==> text == Padded(n, width)
  {
    hide Value;
    FixedValue(10, n, width);
    if text == Padded(n, width) {
      assert DigitsOf(text) == Fixed(10, n, width);
    } else if AllDigits(text) && Number(text) == n {
      FixedWidthUnique(10, DigitsOf(text), Fixed(10, n, width));
      TextOfDigits(text);
    }
  }

  lemma ComponentBound(text: string)
    requires Component(text).Some?
    ensures Component(text).value < Power(10, |text|)
    ensures |text| == 2 ==> Component(text).value < 100
    ensures |text| == 4 ==> Component(text).value < 10000
  {
    ValueBound(10, DigitsOf(text));
    assert Power(10, 2) == 100 && Power(10, 4) == 10000;
  }

  lemma PrintedSlices(m: Moment, separator: char)
    requires SmallFields(m)
    ensures var t := Printed(m, separator);
      && t[..4] == Four(m.year) && t[4] == '-' && t[5..7] == Two(m.month) && t[7] == '-' && t[8..10] == Two(m.day)
      && t[10] == separator
      && t[11..13] == Two(m.hour) && t[13] == ':' && t[14..16] == Two(m.minute) && t[16] == ':'
        && t[17..19] == Two(m.second)
  {
    hide Two, Four;
  }

  lemma SlicesJoin(t: string)
    requires |t| == 19 && t[4] == '-' && t[7] == '-' && t[13] == ':' && t[16] == ':'
    ensures t == t[..4] + "-" + t[5..7] + "-" + t[8..10] + [t[10]] + t[11..13] + ":" + t[14..16] + ":" + t[17..19]
  {
  }

  lemma ComponentTwo(text: string, n: nat)
    requires |text| == 2 && n < 100
    ensures Component(text) == Some(n) <==> text == Two(n)
  {
    HundredFits(n);
    ComponentPadded(text, n, 2);
  }

  lemma ComponentFour(text: string, n: nat)
    requires |text| == 4 && n < 10000
    ensures Component(text) == Some(n) <==> text == Four(n)
  {
    assert Power(10, 2) == 100 && Power(10, 4) == 10000;
    ComponentPadded(text, n, 4);
  }

  /** The fields are read exactly from the print of a valid moment. */
  lemma FieldsIffPrinted(base: string, m: Moment)
    requires |base| == 19
    ensures Fields(base) == Some(m) <==> ValidMoment(m) && base == Printed(m, base[10])
  {
    hide Two, Four, Component, Power;
    if Fields(base) == Some(m) {
      ComponentBound(base[..4]);
      ComponentBound(base[5..7]);
      ComponentBound(base[8..10]);
      ComponentBound(base[11..13]);
      ComponentBound(base[14..16]);
      ComponentBound(base[17..19]);
      assert ValidMoment(m);
    }
    if ValidMoment(m) {
      assert SmallFields(m);
      ComponentFour(base[..4], m.year);
      ComponentTwo(base[5..7], m.month);
      ComponentTwo(base[8..10], m.day);
      ComponentTwo(base[11..13], m.hour);
      ComponentTwo(base[14..16], m.minute);
      ComponentTwo(base[17..19], m.second);
      PrintedSlices(m, base[10]);
      if Fields(base) == Some(m) { SlicesJoin(base); }
    }
  }

  // ----- the 24 classes, declaratively -----

  function Width(precision: Precision): nat
  {
    match precision
    case Seconds => 0
    case Milliseconds => 3
    case Microseconds => 6
    case Nanoseconds => 9
  }

  predicate IsFraction(text: string, precision: Precision)
  {
    if precision == Seconds then text == ""
    else |text| == 1 + Width(precision) && text[0] == '.' && AllDigits(text[1..])
  }

  predicate IsOffset(text: string, sign: char, hours: nat, minutes: nat)
  {
    hours <= 23 && minutes <= 59 && IsSign(sign) && !(sign == '-' && hours == 0 && minutes == 0)
    && text == [sign] + Two(hours) + ":" + Two(minutes)
  }

  ghost predicate IsZone(text: string, zone: Zone)
  {
    match zone
    case Unzoned => text == ""
    case UpperZ => text == "Z"
    case ColonOffset => exists sign: char, hours: nat, minutes: nat :: IsOffset(text, sign, hours, minutes)
  }

  /** A printed valid moment, then a fraction of that precision, then that kind of zone. */
  ghost predicate IsTimestampOf(text: string, m: Moment, fraction: string, zoneText: string, grammar: TimestampGrammar)
  {
    && grammar.CalendarTime? && ValidMoment(m)
    && text == Printed(m, SeparatorChar(grammar.separator)) + fraction + zoneText
    && IsFraction(fraction, grammar.precision) && IsZone(zoneText, grammar.zone)
  }

  lemma ZoneOfMeans(text: string, zone: Zone)
    ensures ZoneOf(text) == Some(zone) <==> IsZone(text, zone)
  {
    hide Two, Component;
    if |text| == 6 {
      if ZoneOf(text) == Some(ColonOffset) {
        var h, m := Component(text[1..3]).value, Component(text[4..6]).value;
        ComponentTwo(text[1..3], h);
        ComponentTwo(text[4..6], m);
        assert text == [text[0]] + text[1..3] + ":" + text[4..6];
        assert IsOffset(text, text[0], h, m);
      }
      if sign: char, hours: nat, minutes: nat :| IsOffset(text, sign, hours, minutes) {
        assert text[1..3] == Two(hours) && text[4..6] == Two(minutes) && text[0] == sign;
        ComponentTwo(text[1..3], hours);
        ComponentTwo(text[4..6], minutes);
      }
    }
  }

  lemma ZoneStart(text: string, zone: Zone)
    requires IsZone(text, zone)
    ensures text != "" ==> !IsDigit(text[0]) && text[0] != '.'
  {
    hide Two;
    if zone == ColonOffset {
      var sign: char, hours: nat, minutes: nat :| IsOffset(text, sign, hours, minutes);
      assert text[0] == sign;
    }
  }

  lemma FractionSplits(fraction: string, precision: Precision, zoneText: string)
    requires precision != Seconds && AllDigits(fraction) && |fraction| == Width(precision)
    requires zoneText != "" ==> !IsDigit(zoneText[0])
    ensures FractionWidth(fraction + zoneText) == Some(Width(precision))
    ensures (fraction + zoneText)[Width(precision)..] == zoneText
    ensures PrecisionOf(Width(precision)) == precision
  {
    var t := fraction + zoneText;
    var w := Width(precision);
    assert t[..w] == fraction;
    assert zoneText != "" ==> t[w] == zoneText[0];
    assert w > 3 ==> IsDigit(t[3]);
    assert w > 6 ==> IsDigit(t[6]);
  }

  lemma PrintedSeparator(m: Moment, separator: char)
    requires SmallFields(m)
    ensures Printed(m, separator)[10] == separator
  {
    hide Printed;
    PrintedSlices(m, separator);
  }

  lemma SplitAt19(base: string, fraction: string, zoneText: string)
    requires |base| == 19
    ensures var text := base + fraction + zoneText;
      |text| >= 19 && text[..19] == base && text[10] == base[10] && text[19..] == fraction + zoneText
  {
  }

  lemma SuffixIsClassified(fraction: string, zoneText: string, grammar: TimestampGrammar)
    requires grammar.CalendarTime? && IsFraction(fraction, grammar.precision) && IsZone(zoneText, grammar.zone)
    ensures SuffixGrammar(grammar.separator, fraction + zoneText) == Some(grammar)
  {
    hide ZoneOf, IsZone, FractionWidth;
    ZoneOfMeans(zoneText, grammar.zone);
    ZoneStart(zoneText, grammar.zone);
    if grammar.precision == Seconds {
      assert fraction + zoneText == zoneText;
    } else {
      FractionSplits(fraction[1..], grammar.precision, zoneText);
      assert (fraction + zoneText)[1..] == fraction[1..] + zoneText;
    }
  }

  lemma TimestampIsClassified(text: string, m: Moment, fraction: string, zoneText: string, grammar: TimestampGrammar)
    requires IsTimestampOf(text, m, fraction, zoneText, grammar)
    ensures ClassifyTimestamp(text) == grammar
  {
    hide Fields, Printed, IsFraction, IsZone, SuffixGrammar;
    var base := Printed(m, SeparatorChar(grammar.separator));
    PrintedSeparator(m, SeparatorChar(grammar.separator));
    SplitAt19(base, fraction, zoneText);
    FieldsIffPrinted(base, m);
    SuffixIsClassified(fraction, zoneText, grammar);
  }

  lemma ClassifiedIsTimestamp(text: string) returns (m: Moment, fraction: string, zoneText: string)
    requires ClassifyTimestamp(text) != Unclassified
    ensures IsTimestampOf(text, m, fraction, zoneText, ClassifyTimestamp(text))
  {
    hide Fields, Printed, ZoneOf, IsZone;
    var grammar := ClassifyTimestamp(text);
    m := Fields(text[..19]).value;
    FieldsIffPrinted(text[..19], m);
    var suffix := text[19..];
    assert text == text[..19] + suffix;
    if suffix != "" && suffix[0] == '.' {
      var width := FractionWidth(suffix[1..]).value;
      fraction, zoneText := suffix[..1 + width], suffix[1 + width..];
      assert suffix[1..][width..] == zoneText && suffix[1..][..width] == fraction[1..];
    } else {
      fraction, zoneText := "", suffix;
    }
    ZoneOfMeans(zoneText, grammar.zone);
    assert text == text[..19] + fraction + zoneText;
  }

  /** The classification of a text is exactly its declarative reading. */
  lemma ClassifyTimestampMeans(text: string, grammar: TimestampGrammar)
    requires grammar != Unclassified
    ensures ClassifyTimestamp(text) == grammar
       <==> exists m: Moment, fraction: string, zoneText: string :: IsTimestampOf(text, m, fraction, zoneText, grammar)
  {
    hide ClassifyTimestamp, IsTimestampOf;
    if ClassifyTimestamp(text) == grammar {
      var m, fraction, zoneText := ClassifiedIsTimestamp(text);
    }
    if m: Moment, fraction: string, zoneText: string :| IsTimestampOf(text, m, fraction, zoneText, grammar) {
      TimestampIsClassified(text, m, fraction, zoneText, grammar);
    }
  }
}
