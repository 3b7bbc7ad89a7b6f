/** Clock times: MYSQL_TIME records against durations in (real) seconds. */
module Clock {
  import opened MachineInts

  /** The record that the client library exchanges for DATE, DATETIME and TIME. */
  datatype MysqlTime = MysqlTime(
    year: uint32, month: uint32, day: uint32,
    hour: uint32, minute: uint32, second: uint32,
    secondPart: nat, neg: bool)

  const ZERO_TIME := MysqlTime(0, 0, 0, 0, 0, 0, 0, false)

  /** `sizeof(MYSQL_TIME)` */
  const TIME_SIZE: nat := 40

  const MICROS := 1_000_000.0

  function Abs(x: real): real { if x < 0.0 then -x else x }

  /** Rounds toward zero, as `trunc` does. */
  function Trunc(x: real): int {
    if x >= 0.0 then x.Floor else -((-x).Floor)
  }

  /** Whole microseconds in the size of a duration. */
  function Micros(time: real): (us: int)
    ensures us >= 0
  {
    (Abs(time) * MICROS).Floor
  }

  /** The hour field has 32 bits. */
  predicate HoursFit(time: real) {
    Micros(time) / 3_600_000_000 < 0x1_0000_0000
  }

  /** The clock fields of a duration, by division of its whole microseconds. */
  function WithClock(buffer: MysqlTime, time: real): MysqlTime
    requires HoursFit(time)
  {
    var us := Micros(time);
    buffer.(
      hour := (us / 3_600_000_000) as uint32,
      minute := (us / 60_000_000 % 60) as uint32,
      second := (us / 1_000_000 % 60) as uint32,
      secondPart := us % 1_000_000,
      neg := time < 0.0)
  }

  /** The clock fields of a record in seconds: the sum in `value_time`. */
  function ClockSeconds(t: MysqlTime): real {
    t.hour as real * 3600.0 + t.minute as real * 60.0 + t.second as real + t.secondPart as real / MICROS
  }

  /** `value_time`. */
  function TimeValue(t: MysqlTime): real {
    (if t.neg then -1.0 else 1.0) * ClockSeconds(t)
  }

  /** What each field of a TIME counts. */
  lemma UnitsOfTime(n: uint32, us: nat, t: MysqlTime)
    ensures TimeValue(ZERO_TIME) == 0.0
    ensures TimeValue(ZERO_TIME.(hour := n)) == n as real * 3600.0
    ensures TimeValue(ZERO_TIME.(minute := n)) == n as real * 60.0
    ensures TimeValue(ZERO_TIME.(second := n)) == n as real
    ensures TimeValue(ZERO_TIME.(secondPart := us)) == us as real * 0.000001
    ensures TimeValue(t.(neg := true)) == -TimeValue(t.(neg := false))
  {}

  /** Nested truncation: dividing before or after dropping the fraction is the same. */
  lemma FloorDiv(x: real)
    requires x >= 0.0
    ensures (x / 60.0).Floor == x.Floor / 60
    ensures (x / 3600.0).Floor == x.Floor / 3600
  {
    var m, h := x.Floor / 60, x.Floor / 3600;
    assert (60 * m) as real <= x < (60 * m + 60) as real;
    assert (3600 * h) as real <= x < (3600 * h + 3600) as real;
  }

  /** Splitting seconds and fraction apart before scaling to microseconds. */
  lemma FractionMicros(x: real)
    requires x >= 0.0
    ensures (x * MICROS).Floor / 1_000_000 == x.Floor
    ensures ((x - x.Floor as real) * MICROS).Floor == (x * MICROS).Floor % 1_000_000
  {
    var part := ((x - x.Floor as real) * MICROS).Floor;
    assert 0 <= part < 1_000_000;
    assert (x * MICROS).Floor == x.Floor * 1_000_000 + part by {
      assert x * MICROS == (x.Floor * 1_000_000) as real + (x - x.Floor as real) * MICROS;
    }
  }

  lemma MicrosSplit(us: int)
    requires us >= 0
    ensures us / 60_000_000 == us / 1_000_000 / 60
    ensures us / 3_600_000_000 == us / 1_000_000 / 3600
  {
    var s := us / 1_000_000;
    assert 1_000_000 * s <= us < 1_000_000 * s + 1_000_000;
    var m, h := s / 60, s / 3600;
    assert 60_000_000 * m <= us < 60_000_000 * m + 60_000_000;
    assert 3_600_000_000 * h <= us < 3_600_000_000 * h + 3_600_000_000;
  }

  /** The clock fields of a record add up to the microseconds they were split from. */
  lemma ClockSecondsOfMicros(t: MysqlTime, us: int)
    requires us >= 0
    requires t.hour as int == us / 3_600_000_000
    requires t.minute as int == us / 60_000_000 % 60
    requires t.second as int == us / 1_000_000 % 60
    requires t.secondPart == us % 1_000_000
    ensures ClockSeconds(t) == us as real / MICROS
  {
    MicrosSplit(us);
    var h, m, s := t.hour as int, t.minute as int, t.second as int;
    var seconds := us / 1_000_000;
    assert seconds == 60 * (seconds / 60) + s;
    assert seconds / 3600 == (seconds / 60) / 60;
    assert seconds == h * 3600 + m * 60 + s;
    assert us == seconds * 1_000_000 + t.secondPart;
    assert seconds as real == h as real * 3600.0 + m as real * 60.0 + s as real;
    assert us as real == seconds as real * MICROS + t.secondPart as real;
  }

  /** A TIME comes back truncated toward zero to a microsecond, with its sign. */
  lemma TimeRoundTrip(buffer: MysqlTime, time: real)
    requires HoursFit(time)
    ensures TimeValue(WithClock(buffer, time)) == Trunc(time * MICROS) as real / MICROS
  {
    ClockSecondsOfMicros(WithClock(buffer, time), Micros(time));
  }

  /** Splitting a duration by repeated truncation, as the encoder does. */
  lemma TruncationSplit(time: real, wholeSeconds: int, wholeMinutes: int, hours: int)
    requires time >= 0.0
    requires wholeSeconds == Trunc(time) && wholeMinutes == Trunc(time / 60.0) && hours == Trunc(time / 3600.0)
    ensures var us := Micros(time);
            && hours == us / 3_600_000_000
            && wholeMinutes - hours * 60 == us / 60_000_000 % 60
            && wholeSeconds - wholeMinutes * 60 == us / 1_000_000 % 60
            && ((time - wholeSeconds as real) * MICROS).Floor == us % 1_000_000
  {
    FloorDiv(time);
    FractionMicros(time);
    MicrosSplit(Micros(time));
    assert wholeSeconds / 3600 == wholeSeconds / 60 / 60;
  }
}
