/** Parameters on their way to the server, and dates and times back from it. */
module RoundTrips {
  import opened MachineInts
  import opened Calendar
  import opened Clock
  import opened Server
  import opened Encoding
  import opened ResultRow

  /** NULL is sent for NA, and for NaN in dates and times, and for nothing else; what has no
      date and no time is sent as it is, a double NaN among it. */
  lemma NullOnlyForMissing(v: Scalar, kind: FieldType)
    requires HasType(v, kind) && Encodable(v, kind)
    ensures var timed := kind in {MyDate, MyDateTime, MyTime};
            && (Encode(v, kind) == Null <==> v == Missing || (timed && v == NaN))
            && (!timed && v != Missing ==> Encode(v, kind) == Plain(kind, v))
            && (timed && v.Number? ==> Encode(v, kind).Timed? && Encode(v, kind).kind == kind)
  {}

  /** Every value that is not a number has an encoding. */
  lemma OthersEncodable(v: Scalar, kind: FieldType)
    requires !v.Number? || kind !in {MyDate, MyDateTime, MyTime}
    ensures Encodable(v, kind)
  {}

  /** A TIME is sent without a date, with its sign and a regular clock, and comes back truncated
      toward zero to a microsecond. */
  lemma TimeArrives(x: real)
    requires Encodable(Number(x), MyTime)
    ensures Encode(Number(x), MyTime).Timed?
    ensures var t := Encode(Number(x), MyTime).time;
            && t.year == 0 && t.month == 0 && t.day == 0 && (t.neg <==> x < 0.0)
            && t.minute < 60 && t.second < 60 && t.secondPart < 1_000_000
            && Conforms(TimeCell(t), MyTime)
            && Decode(TimeCell(t), MyTime) ==
               Real(if x >= 0.0 then (x * 1_000_000.0).Floor as real / 1_000_000.0
                    else -((-x * 1_000_000.0).Floor as real / 1_000_000.0))
  {
    TimeRoundTrip(ZERO_TIME, x);
    assert (-x) * 1_000_000.0 == -(x * 1_000_000.0);
  }

  /** A DATE is sent as the calendar date that lies so many days after 1970-01-01, without a
      time, and comes back as the whole number of days. */
  lemma DateArrives(x: real)
    requires Encodable(Number(x), MyDate)
    ensures Encode(Number(x), MyDate).Timed?
    ensures var t, date := Encode(Number(x), MyDate).time, DateOfDay(x.Floor);
            && ToSigned(t.year) as int == date.year && t.month as int == date.month && t.day as int == date.day
            && t.hour == 0 && t.minute == 0 && t.second == 0 && t.secondPart == 0 && !t.neg
            && Conforms(TimeCell(t), MyDate)
            && Decode(TimeCell(t), MyDate) == Real(x.Floor as real)
  {
    YearFits(x.Floor);
    UnsignedRoundTrip(DateOfDay(x.Floor).year as int32);
    DateRoundTrip(x);
  }

  /** A DATETIME is sent as the calendar date of its day, with a regular clock and no sign ... */
  lemma DateTimeSent(x: real)
    requires Encodable(Number(x), MyDateTime)
    ensures Encode(Number(x), MyDateTime).Timed?
    ensures var t, date := Encode(Number(x), MyDateTime).time, DateOfDay((x / 86400.0).Floor);
            && ToSigned(t.year) as int == date.year && t.month as int == date.month && t.day as int == date.day
            && t.hour <= 23 && t.minute < 60 && t.second < 60 && t.secondPart < 1_000_000 && !t.neg
  {
    DateTimeDate(x);
    DateTimeClock(x);
  }

  lemma ReceivedTimestamp(t: MysqlTime)
    requires Decodable(t)
    ensures Conforms(TimeCell(t), MyDateTime) && Decode(TimeCell(t), MyDateTime) == Real(DateTimeValue(t))
  {}

  /** ... and comes back rounded down to a microsecond. */
  lemma DateTimeArrives(x: real)
    requires Encodable(Number(x), MyDateTime)
    ensures Encode(Number(x), MyDateTime).Timed?
    ensures var t := Encode(Number(x), MyDateTime).time;
            && Conforms(TimeCell(t), MyDateTime)
            && Decode(TimeCell(t), MyDateTime) == Real((x * 1_000_000.0).Floor as real / 1_000_000.0)
  {
    DateTimeRoundTrip(x);
    ReceivedTimestamp(DateTimeRecord(x));
  }
}
