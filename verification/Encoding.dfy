/** What one element of a parameter column means to the server. */
module Encoding {
  import opened MachineInts
  import opened Clock
  import opened Calendar
  import opened CivilDays
  import opened Server

  const DAY_SECONDS := 86400.0

  /** Day numbers whose conversion to a date does not overflow an int. */
  predicate DayFits(day: int) {
    INT32_MIN <= day <= INT32_MAX - 719468
  }

  predicate Encodable(v: Scalar, kind: FieldType) {
    v.Number? ==> match kind
      case MyDate => DayFits(v.x.Floor)
      case MyDateTime => DayFits((v.x / DAY_SECONDS).Floor)
      case MyTime => HoursFit(v.x)
      case _ => true
  }

  /** Dates that DayFits admits have a year that an int holds. */
  lemma YearFits(day: int)
    requires DayFits(day)
    ensures Valid(DateOfDay(day))
    ensures -6_000_000 <= DateOfDay(day).year <= 6_000_000
  {
    DateOfDayNumber(day);
  }

  function WithDate(buffer: MysqlTime, day: int): MysqlTime
    requires DayFits(day)
  {
    YearFits(day);
    var date := DateOfDay(day);
    buffer.(year := ToUnsigned(date.year as int32), month := date.month as uint32, day := date.day as uint32)
  }

  /** DATE: the day the value falls on, with the clock at zero. */
  function DateRecord(x: real): MysqlTime
    requires DayFits(x.Floor)
  {
    WithDate(ZERO_TIME, x.Floor)
  }

  lemma WithinDay(x: real)
    ensures 0.0 <= x - (x / DAY_SECONDS).Floor as real * DAY_SECONDS < DAY_SECONDS
    ensures HoursFit(x - (x / DAY_SECONDS).Floor as real * DAY_SECONDS)
  {
    var days := (x / DAY_SECONDS).Floor;
    assert days as real <= x / DAY_SECONDS < days as real + 1.0;
  }

  /** DATETIME: the day, and the seconds since its midnight. */
  function DateTimeRecord(x: real): MysqlTime
    requires DayFits((x / DAY_SECONDS).Floor)
  {
    var days := (x / DAY_SECONDS).Floor;
    WithinDay(x);
    WithClock(WithDate(ZERO_TIME, days), x - days as real * DAY_SECONDS)
  }

  /** TIME: a signed duration with no date. */
  function TimeRecord(x: real): MysqlTime
    requires HoursFit(x)
  {
    WithClock(ZERO_TIME, x)
  }

  /** NULL stands for NA, and in dates and times for NaN too; a double NaN is sent as it is. */
  function Encode(v: Scalar, kind: FieldType): Sent
    requires Encodable(v, kind)
  {
    match v
    case Missing => Null
    case NaN => if kind == MyDbl then Plain(kind, v) else Null
    case Number(x) =>
      (match kind
       case MyDate => Timed(kind, DateRecord(x))
       case MyDateTime => Timed(kind, DateTimeRecord(x))
       case MyTime => Timed(kind, TimeRecord(x))
       case _ => Plain(kind, v))
    case _ => Plain(kind, v)
  }

  // ----- The decoders of MariaRow -----

  predicate Decodable(t: MysqlTime) {
    t.month <= 31 && t.day <= 31 && Computable(ToSigned(t.year), t.month as int32, t.day as int32)
  }

  function DateValue(t: MysqlTime): real
    requires Decodable(t)
  {
    DaysFromCivil(ToSigned(t.year), t.month as int32, t.day as int32) as real
  }

  function DateTimeValue(t: MysqlTime): real
    requires Decodable(t)
  {
    DaysFromCivil(ToSigned(t.year), t.month as int32, t.day as int32) as real * DAY_SECONDS + ClockSeconds(t)
  }

  // ----- Round trips -----

  lemma DecodableDay(day: int)
    requires DayFits(day)
    ensures Valid(DateOfDay(day)) && -6_000_000 <= DateOfDay(day).year <= 6_000_000
    ensures var date := DateOfDay(day);
            && Computable(date.year as int32, date.month as int32, date.day as int32)
            && DaysFromCivil(date.year as int32, date.month as int32, date.day as int32) as int == day
  {
    YearFits(day);
    DateOfDayNumber(day);
    var date := DateOfDay(day);
    EraForm(date);
  }

  lemma DecodableRecord(t: MysqlTime, day: int)
    requires DayFits(day)
    requires var r := WithDate(ZERO_TIME, day); t.year == r.year && t.month == r.month && t.day == r.day
    ensures Decodable(t)
    ensures DaysFromCivil(ToSigned(t.year), t.month as int32, t.day as int32) as int == day
  {
    DecodableDay(day);
    UnsignedRoundTrip(DateOfDay(day).year as int32);
  }

  /** A received date counts the days of the calendar, and a received timestamp adds the
      seconds since midnight. */
  lemma ReceivedDate(y: int32, m: int32, d: int32, t: MysqlTime)
    requires Valid(Date(y as int, m as int, d as int)) && Computable(y, m, d)
    requires t.year == ToUnsigned(y) && t.month as int == m as int && t.day as int == d as int && !t.neg
    ensures Decodable(t)
    ensures DateValue(t) == DayNumber(Date(y as int, m as int, d as int)) as real
    ensures DateTimeValue(t) == DayNumber(Date(y as int, m as int, d as int)) as real * 86400.0 + TimeValue(t)
  {
    UnsignedRoundTrip(y);
    EraForm(Date(y as int, m as int, d as int));
  }

  /** Whatever the server can hold as a date or timestamp can be sent: all dates of the years
      0 to 9999, at any time of the day. */
  lemma ServerDatesEncodable(date: Date, seconds: real)
    requires Valid(date) && 0 <= date.year <= 9999 && 0.0 <= seconds < 86400.0
    ensures Encodable(Number(DayNumber(date) as real), MyDate)
    ensures Encodable(Number(DayNumber(date) as real * 86400.0 + seconds), MyDateTime)
  {
    var day := DayNumber(date);
    DayWithinYear(date);
    assert -1_000_000 <= day <= 4_000_000;
    assert (day as real).Floor == day;
    var x := day as real * 86400.0 + seconds;
    assert day as real <= x / 86400.0 < day as real + 1.0;
  }

  /** Every day number comes back, those before 1970 and before year 1 included. */
  lemma DateRoundTrip(x: real)
    requires DayFits(x.Floor)
    ensures Decodable(DateRecord(x)) && DateValue(DateRecord(x)) == x.Floor as real
  {
    DecodableRecord(DateRecord(x), x.Floor);
  }

  /** And every calendar date comes back from its day number. */
  lemma CivilRoundTrip(y: int32, m: int32, d: int32)
    requires Valid(Date(y as int, m as int, d as int)) && Computable(y, m, d)
    ensures DayFits(DaysFromCivil(y, m, d) as int)
    ensures DateOfDay(DaysFromCivil(y, m, d) as int) == Date(y as int, m as int, d as int)
    ensures var t := DateRecord(DaysFromCivil(y, m, d) as real);
            ToSigned(t.year) == y && t.month as int32 == m && t.day as int32 == d
  {
    UnsignedRoundTrip(y);
    YearFits(DaysFromCivil(y, m, d) as int);
    DaysFromCivilIsWalk(y, m, d);
    assert (DaysFromCivil(y, m, d) as real).Floor == DaysFromCivil(y, m, d) as int;
  }

  /** The greatest whole number of microseconds not above x, in seconds. */
  function FloorToMicros(x: real): real {
    (x * MICROS).Floor as real / MICROS
  }

  lemma HourBound(us: int)
    requires 0 <= us < 86_400_000_000
    ensures us / 3_600_000_000 <= 23
  {}

  /** The seconds since midnight are the microseconds that whole days leave over. */
  lemma MicrosOfDay(x: real) returns (us: int)
    ensures var days := (x / DAY_SECONDS).Floor;
            && us == Micros(x - days as real * DAY_SECONDS)
            && 0 <= us < 86_400_000_000
            && (x * MICROS).Floor == days * 86_400_000_000 + us
  {
    WithinDay(x);
    var days := (x / DAY_SECONDS).Floor;
    var time := x - days as real * DAY_SECONDS;
    us := Micros(time);
    assert x * MICROS == (days * 86_400_000_000) as real + time * MICROS;
  }

  /** A DATETIME has a clock between midnight and midnight, with no sign. */
  lemma DateTimeClock(x: real)
    requires DayFits((x / DAY_SECONDS).Floor)
    ensures var t := DateTimeRecord(x);
            !t.neg && t.hour <= 23 && t.minute < 60 && t.second < 60 && t.secondPart < 1_000_000
  {
    var us := MicrosOfDay(x);
    WithinDay(x);
    HourBound(us);
  }

  /** Its date is the one of the day. */
  lemma DateTimeDate(x: real)
    requires DayFits((x / DAY_SECONDS).Floor)
    ensures var t, date := DateTimeRecord(x), DateOfDay((x / DAY_SECONDS).Floor);
            ToSigned(t.year) as int == date.year && t.month as int == date.month && t.day as int == date.day
  {
    var day := (x / DAY_SECONDS).Floor;
    YearFits(day);
    UnsignedRoundTrip(DateOfDay(day).year as int32);
  }

  /** It comes back rounded down to a microsecond, before 1970 as after. */
  lemma DateTimeRoundTrip(x: real)
    requires DayFits((x / DAY_SECONDS).Floor)
    ensures Decodable(DateTimeRecord(x)) && DateTimeValue(DateTimeRecord(x)) == FloorToMicros(x)
  {
    var days := (x / DAY_SECONDS).Floor;
    var us := MicrosOfDay(x);
    WithinDay(x);
    DecodableRecord(DateTimeRecord(x), days);
    ClockSecondsOfMicros(DateTimeRecord(x), us);
    DaysAndMicros(days, us);
  }

  lemma DaysAndMicros(days: int, us: int)
    ensures days as real * DAY_SECONDS + us as real / MICROS == (days * 86_400_000_000 + us) as real / MICROS
  {
    assert (days * 86_400_000_000 + us) as real == days as real * 86_400_000_000.0 + us as real;
  }
}
