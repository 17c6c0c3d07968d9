/** Identifiers that carry a creation time: the timestamp of a record must name the very
    UTC second held in the upper bits of its identifier. */
module Snowflake {
  import opened Calendar
  import opened Decimal
  import opened Options
  import opened Radix

  datatype ProfileError = InvalidProfile

  const DISCORD_EPOCH: int := 1_420_070_400_000
  const DAYS_TO_1970: int := 719_162
  const I64_LIMIT: int := 0x8000_0000_0000_0000

  // ----- days since 1970 -----

  function DaysBeforeMonth(month: nat): nat
  {
    if month <= 1 then 0 else if month == 2 then 31 else if month == 3 then 59 else if month == 4 then 90
    else if month == 5 then 120 else if month == 6 then 151 else if month == 7 then 181 else if month == 8 then 212
    else if month == 9 then 243 else if month == 10 then 273 else if month == 11 then 304 else 334
  }

  /** Leap days in the years 1 to `year`. */
  function LeapDays(year: nat): int
  {
    year / 4 - year / 100 + year / 400
  }

  function DayNumber(year: nat, month: nat, day: nat): int
    requires year >= 1
  {
    var previous := year - 1;
    previous * 365 + LeapDays(previous)
    + DaysBeforeMonth(month) + (if IsLeap(year) && month > 2 then 1 else 0) + day - 1 - DAYS_TO_1970
  }

  function CheckedI64(n: int): Option<int>
  {
    if -I64_LIMIT <= n < I64_LIMIT then Some(n) else None
  }

  function SecondOfDay(m: Moment): nat
  {
    m.hour * 3600 + m.minute * 60 + m.second
  }

  /** Seconds since 1970, with the overflow checks of the source. */
  function CheckedSeconds(m: Moment): Option<int>
    requires m.year >= 1
  {
    match CheckedI64(DayNumber(m.year, m.month, m.day) * 86_400)
    case None => None
    case Some(s) => CheckedI64(s + SecondOfDay(m))
  }

  /** The UTC millisecond held in an identifier. */
  function IdMillis(id: nat): int
  {
    id / 0x40_0000 + DISCORD_EPOCH
  }

  const SENT_MESSAGE_TIME := CalendarTime(Space, Seconds, Unzoned)

  function ParseId(text: string): Result<string, ProfileError>
  {
    if Classify(text) == CanonicalPositiveU64Decimal then Ok(text) else Err(InvalidProfile)
  }

  /** The check of the source, for an identifier that `ParseId` accepted. */
  function TimestampMillis(id: string, timestamp: string): Result<int, ProfileError>
    requires ParseId(id).Ok?
  {
    if ClassifyTimestamp(timestamp) != SENT_MESSAGE_TIME then Err(InvalidProfile)
    else
      IdentifierIsPrint(id);
      SentTimeFields(timestamp);
      var seconds := CheckedSeconds(Fields(timestamp).value);
      var millis := CheckedI64(IdMillis(Number(id)));
      if seconds.None? || millis.None? then Err(InvalidProfile)
      else if millis.value / 1000 != seconds.value then Err(InvalidProfile)
      else Ok(millis.value)
  }

  lemma SentTimeFields(timestamp: string)
    ensures ClassifyTimestamp(timestamp) == SENT_MESSAGE_TIME
      <==> (|timestamp| == 19 && Fields(timestamp).Some? && ValidMoment(Fields(timestamp).value)
            && timestamp == Printed(Fields(timestamp).value, ' '))
  {
    hide Fields, Printed, ClassifyTimestamp;
    if ClassifyTimestamp(timestamp) == SENT_MESSAGE_TIME {
      var m, fraction, zoneText := ClassifiedIsTimestamp(timestamp);
      assert timestamp == Printed(m, ' ');
      PrintedSeparator(m, ' ');
      FieldsIffPrinted(timestamp, m);
    }
    if |timestamp| == 19 && Fields(timestamp).Some? {
      var m := Fields(timestamp).value;
      FieldsIffPrinted(timestamp, m);
      if timestamp == Printed(m, ' ') {
        assert timestamp == Printed(m, ' ') + "" + "";
        TimestampIsClassified(timestamp, m, "", "", SENT_MESSAGE_TIME);
      }
    }
  }

  // ----- the day formula against the calendar -----

  datatype Date = Date(year: nat, month: nat, day: nat)

  predicate IsDate(d: Date)
  {
    ValidDate(d.year, d.month, d.day)
  }

  function Day(d: Date): int
    requires IsDate(d)
  {
    DayNumber(d.year, d.month, d.day)
  }

  /** The calendar's own successor. */
  function NextDay(d: Date): (next: Date)
    requires IsDate(d)
    ensures IsDate(next)
  {
    if d.day < LastDay(d.year, d.month).value then d.(day := d.day + 1)
    else if d.month < 12 then Date(d.year, d.month + 1, 1)
    else Date(d.year + 1, 1, 1)
  }

  /** The formula advances by exactly one from each day to the next. */
  lemma DayAdvances(d: Date)
    requires IsDate(d)
    ensures Day(NextDay(d)) == Day(d) + 1
  {
    hide LeapDays;
    LeapYears(d.year);
  }

  lemma LeapYears(year: nat)
    requires year >= 1
    ensures LeapDays(year) == LeapDays(year - 1) + if IsLeap(year) then 1 else 0
  {
    QuotientSteps(year);
    RemaindersNest(year);
  }

  lemma QuotientSteps(year: nat)
    requires year >= 1
    ensures year / 4 == (year - 1) / 4 + if year % 4 == 0 then 1 else 0
    ensures year / 100 == (year - 1) / 100 + if year % 100 == 0 then 1 else 0
    ensures year / 400 == (year - 1) / 400 + if year % 400 == 0 then 1 else 0
  {
  }

  lemma RemaindersNest(year: nat)
    ensures year % 100 == 0 ==> year % 4 == 0
    ensures year % 400 == 0 ==> year % 100 == 0
  {
    SplitByProduct(year, 4, 25);
    SplitByProduct(year, 100, 4);
  }

  predicate Before(a: Date, b: Date)
  {
    a.year < b.year || (a.year == b.year && (a.month < b.month || (a.month == b.month && a.day < b.day)))
  }

  lemma {:induction false} YearsApart(a: nat, b: nat)
    requires 1 <= a < b
    ensures DayNumber(b, 1, 1) >= DayNumber(a, 12, 31) + 1
    decreases b
  {
    hide LeapDays;
    LeapYears(b - 1);
    if a < b - 1 { YearsApart(a, b - 1); }
  }

  /** Later dates have larger day numbers. */
  lemma DayMonotone(a: Date, b: Date)
    requires IsDate(a) && IsDate(b) && Before(a, b)
    ensures Day(a) < Day(b)
  {
    if a.year < b.year { YearsApart(a.year, b.year); }
  }

  lemma DayInjective(a: Date, b: Date)
    requires IsDate(a) && IsDate(b) && Day(a) == Day(b)
    ensures a == b
  {
    if Before(a, b) { DayMonotone(a, b); }
    if Before(b, a) { DayMonotone(b, a); }
  }

  /** The date `count` days after another, by counting. */
  function DateAfter(start: Date, count: nat): (d: Date)
    requires IsDate(start)
    ensures IsDate(d)
  {
    if count == 0 then start else NextDay(DateAfter(start, count - 1))
  }

  lemma {:induction false} DayOfDateAfter(start: Date, count: nat)
    requires IsDate(start)
    ensures Day(DateAfter(start, count)) == Day(start) + count
  {
    if count > 0 {
      DayOfDateAfter(start, count - 1);
      DayAdvances(DateAfter(start, count - 1));
    }
  }

  /** Days are counted from 1970-01-01, and identifiers from the first millisecond of 2015. */
  lemma EpochsAnchored()
    ensures DayNumber(1970, 1, 1) == 0
    ensures DayNumber(2015, 1, 1) * 86_400 * 1000 == DISCORD_EPOCH == IdMillis(0)
  {
  }

  /** The moment that many seconds after the beginning of 2015, by counting days. */
  function MomentAt(second: nat): Moment
  {
    var d := DateAfter(Date(2015, 1, 1), second / 86_400);
    var rest := second % 86_400;
    Moment(d.year, d.month, d.day, rest / 3600, rest / 60 % 60, rest % 60)
  }

  lemma YearBound(d: Date)
    requires IsDate(d)
    ensures (d.year - 1) * 365 <= Day(d) + DAYS_TO_1970
  {
  }

  lemma MomentAtIsValid(second: nat)
    requires second < 100_000_000_000
    ensures ValidMoment(MomentAt(second)) && CheckedSeconds(MomentAt(second)) == Some(second + 1_420_070_400)
  {
    hide DateAfter;
    EpochsAnchored();
    DayOfDateAfter(Date(2015, 1, 1), second / 86_400);
    YearBound(DateAfter(Date(2015, 1, 1), second / 86_400));
    TimeOfDay(second % 86_400);
  }

  lemma TimeOfDay(rest: nat)
    requires rest < 86_400
    ensures rest / 3600 <= 23 && rest / 60 % 60 <= 59
    ensures rest / 3600 * 3600 + rest / 60 % 60 * 60 + rest % 60 == rest
  {
  }

  lemma CheckedSecondsInjective(a: Moment, b: Moment)
    requires ValidMoment(a) && ValidMoment(b)
    requires CheckedSeconds(a).Some? && CheckedSeconds(a) == CheckedSeconds(b)
    ensures a == b
  {
    hide DayNumber;
    SecondOfDayBound(a);
    SecondOfDayBound(b);
    DayInjective(Date(a.year, a.month, a.day), Date(b.year, b.month, b.day));
  }

  lemma SecondOfDayBound(m: Moment)
    requires ValidMoment(m)
    ensures SecondOfDay(m) < 86_400
  {
  }

  /** The seconds since the beginning of 2015 that an identifier counts, in units of 2^22 per millisecond. */
  function IdSecond(id: nat): nat
  {
    id / 0x40_0000 / 1000
  }

  lemma IdSecondMeans(id: nat)
    requires id < U64_LIMIT
    ensures IdSecond(id) < 100_000_000_000
    ensures IdMillis(id) / 1000 == IdSecond(id) + 1_420_070_400 && CheckedI64(IdMillis(id)) == Some(IdMillis(id))
  {
  }

  /** For every identifier exactly one text is an acceptable timestamp: the zero-padded calendar print of the
      identifier's second, counted from 2015-01-01 00:00:00. */
  lemma ExactlyOneTimestamp(id: string, timestamp: string)
    requires ParseId(id).Ok?
    ensures AllDigits(id) && Number(id) < U64_LIMIT && ValidMoment(MomentAt(IdSecond(Number(id))))
    ensures TimestampMillis(id, timestamp).Ok? <==> timestamp == Printed(MomentAt(IdSecond(Number(id))), ' ')
    ensures TimestampMillis(id, timestamp).Ok? ==>
      TimestampMillis(id, timestamp).value == 1_420_070_400_000 + Number(id) / 0x40_0000
  {
    hide Classify, ClassifyTimestamp, Fields, Printed, MomentAt, Number, CheckedSeconds, IdSecond;
    IdentifierIsPrint(id);
    IdSecondMeans(Number(id));
    var second := IdSecond(Number(id));
    MomentAtIsValid(second);
    var expected := MomentAt(second);
    SentTimeFields(timestamp);
    if ClassifyTimestamp(timestamp) == SENT_MESSAGE_TIME && TimestampMillis(id, timestamp).Ok? {
      CheckedSecondsInjective(Fields(timestamp).value, expected);
    }
    if timestamp == Printed(expected, ' ') {
      PrintedSeparator(expected, ' ');
      FieldsIffPrinted(timestamp, expected);
    }
  }

  /** The first second: identifiers below 1000 times 2^22 belong to the beginning of 2015. */
  lemma FirstSecond(id: string, timestamp: string)
    requires ParseId(id).Ok?
    ensures AllDigits(id)
    ensures Number(id) < 4_194_304_000 ==> (TimestampMillis(id, timestamp).Ok? <==> timestamp == "2015-01-01 00:00:00")
  {
    hide Classify, ClassifyTimestamp, Number, TimestampMillis, MomentAt, Printed;
    ExactlyOneTimestamp(id, timestamp);
    if Number(id) < 4_194_304_000 {
      FirstMoment();
    }
  }

  lemma FirstMoment()
    ensures MomentAt(0) == Moment(2015, 1, 1, 0, 0, 0)
    ensures Printed(Moment(2015, 1, 1, 0, 0, 0), ' ') == "2015-01-01 00:00:00"
  {
    hide Two, Four;
    assert DateAfter(Date(2015, 1, 1), 0) == Date(2015, 1, 1);
    FourDigits(2015);
    TwoDigits(1);
    TwoDigits(0);
  }
}
