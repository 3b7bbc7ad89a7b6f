/** `days_from_civil`: the decoder's date arithmetic, on 32-bit integers. */
module CivilDays {
  import opened MachineInts
  import opened Calendar

  /** Days from the first day of an era to a date in its year `yoe`. */
  function DayOfEra(yoe: int, m: int, d: int): int {
    yoe * 365 + yoe / 4 - yoe / 100 + DaysBeforeMonth(m) + d - 1
  }

  /** The same, from the first day of year 0 of the March-based count. */
  function Shifted(y: int, m: int, d: int): int {
    var march := if m <= 2 then y - 1 else y;
    march / 400 * 146097 + DayOfEra(march % 400, m, d)
  }

  /** The arguments for which no step of the computation leaves the int range. A zero
      month or day, as in the server's zero date, is among them. */
  predicate Computable(y: int32, m: int32, d: int32) {
    && 0 <= m <= 31
    && 0 <= d <= 31
    && INT32_MIN + 719468 <= Shifted(y as int, m as int, d as int) <= INT32_MAX
  }

  function DaysFromCivil(y0: int32, m: int32, d: int32): (days: int32)
    requires Computable(y0, m, d)
    ensures days as int == Shifted(y0 as int, m as int, d as int) - 719468
  {
    var y := if m <= 2 then y0 - 1 else y0;
    var era := TruncDiv400(if y >= 0 then y else y - 399);
    assert era as int == y as int / 400;
    var yoe := (y - era * 400) as uint32 as int32;
    era * 146097 + DayOfEra32(yoe, m, d) - 719468
  }

  function DayOfEra32(yoe: int32, m: int32, d: int32): (doe: int32)
    requires 0 <= yoe < 400 && 0 <= m <= 31 && 0 <= d <= 31
    ensures doe as int == DayOfEra(yoe as int, m as int, d as int)
  {
    var doy := (153 * (m + (if m > 2 then -3 else 9)) + 2) / 5 + d - 1;
    yoe * 365 + yoe / 4 - yoe / 100 + doy
  }

  lemma EraForm(date: Date)
    ensures DayNumber(date) == Shifted(date.year, date.month, date.day) - 719468
  {
    var march := MarchYear(date);
    EraSplit(march, march / 400, march % 400);
  }

  /** The decoder agrees with the day-by-day walk on every calendar date. */
  lemma DaysFromCivilIsWalk(y: int32, m: int32, d: int32)
    requires Computable(y, m, d) && Valid(Date(y as int, m as int, d as int))
    ensures DateOfDay(DaysFromCivil(y, m, d) as int) == Date(y as int, m as int, d as int)
  {
    EraForm(Date(y as int, m as int, d as int));
    WalkReaches(Date(y as int, m as int, d as int));
  }

  /** Whole eras of 400 years are 146097 days long. */
  lemma EraSplit(y: int, era: int, yoe: int)
    requires y == 400 * era + yoe && 0 <= yoe < 400
    ensures DaysBeforeYear(y) == 146097 * era + yoe * 365 + yoe / 4 - yoe / 100
  {
    assert y / 4 == 100 * era + yoe / 4;
    assert y / 100 == 4 * era + yoe / 100;
    assert y / 400 == era;
  }

  /** The year-of-era formula finds the March-based year that a day of an era lies in. */
  lemma YearOfEra(doe: int) returns (yoe: int)
    requires 0 <= doe <= 146096
    ensures yoe == (doe - doe / 1460 + doe / 36524 - doe / 146096) / 365
    ensures 0 <= yoe <= 399 && DaysBeforeYear(yoe) <= doe < DaysBeforeYear(yoe + 1)
  {
    // century, four-year cycle, year in the cycle; the last of each may be a day longer
    var c := if doe == 146096 then 3 else doe / 36524;
    var e := doe - 36524 * c;
    var k, f := e / 1461, e % 1461;
    var s := if f == 1460 then 3 else f / 365;
    yoe := 100 * c + 4 * k + s;
    CenturyShift(doe, c, e);
    YearFormula(c, k, f, s);
    YearStart(c, k, s);
    YearLength(yoe);
    CycleEnd(c, k, s);
  }

  lemma YearFormula(c: int, k: int, f: int, s: int)
    requires 0 <= c <= 3 && 0 <= k <= 24 && 0 <= f <= 1460
    requires s == if f == 1460 then 3 else f / 365
    ensures var e := 1461 * k + f;
            (36500 * c + e - (24 * c + e) / 1460) / 365 == 100 * c + 4 * k + s
  {
    assert (24 * c + (1461 * k + f)) / 1460 == k + (24 * c + k + f) / 1460;
    var late := (24 * c + k + f) / 1460;
    assert late == if 24 * c + k + f >= 1460 then 1 else 0;
    assert 365 * s <= f - late < 365 * s + 365;
    assert 36500 * c + (1461 * k + f) - (k + late) == 365 * (100 * c + 4 * k) + (f - late);
  }

  /** The year starts after its centuries, four-year cycles and years. */
  lemma YearStart(c: int, k: int, s: int)
    requires 0 <= c <= 3 && 0 <= k <= 24 && 0 <= s <= 3
    ensures DaysBeforeYear(100 * c + 4 * k + s) == 36524 * c + 1461 * k + 365 * s
  {
    var y := 100 * c + 4 * k + s;
    assert y / 4 == 25 * c + k;
    assert y / 100 == c;
    assert y / 400 == 0;
  }

  lemma CenturyShift(doe: int, c: int, e: int)
    requires 0 <= doe <= 146096 && doe == 36524 * c + e
    requires c == if doe == 146096 then 3 else doe / 36524
    ensures doe - doe / 1460 + doe / 36524 - doe / 146096 == 36500 * c + e - (24 * c + e) / 1460
  {
    assert doe / 1460 == 25 * c + (24 * c + e) / 1460;
  }

  /** A year whose March-based successor is divisible by 4 is the last of its cycle. */
  lemma CycleEnd(c: int, k: int, s: int)
    requires 0 <= c <= 3 && 0 <= k <= 24 && 0 <= s <= 3
    ensures IsLeap(100 * c + 4 * k + s + 1) <==> s == 3 && (k < 24 || c == 3)
  {
    assert (100 * c + 4 * k + s + 1) % 4 == (s + 1) % 4;
    assert 100 * c + 4 * k + s + 1 == 100 * c + (4 * k + s + 1);
    if 4 * k + s + 1 == 100 {
      assert 100 * c + 4 * k + s + 1 == 100 * (c + 1);
    } else {
      assert (100 * c + (4 * k + s + 1)) % 100 == 4 * k + s + 1;
    }
  }

  /** Month and day from the day of a March-based year; 29 February only in a leap year. */
  lemma MonthAndDay(y: int, doy: int) returns (mp: int, civil: Date)
    requires 0 <= doy <= 365 && (doy == 365 ==> IsLeap(y + 1))
    ensures mp == (5 * doy + 2) / 153 && 0 <= mp <= 11
    ensures var m := if mp < 10 then mp + 3 else mp - 9;
            civil == Date(if m <= 2 then y + 1 else y, m, doy - (153 * mp + 2) / 5 + 1)
    ensures Valid(civil) && MarchYear(civil) == y
    ensures DaysBeforeMonth(civil.month) + civil.day - 1 == doy
  {
    mp := (5 * doy + 2) / 153;
    var m := if mp < 10 then mp + 3 else mp - 9;
    civil := Date(if m <= 2 then y + 1 else y, m, doy - (153 * mp + 2) / 5 + 1);
  }

  /** The whole computation of a date from a day number, on unbounded integers. */
  lemma CivilOfDay(date: int, era: int, doe: int) returns (yoe: int, doy: int, mp: int, civil: Date)
    requires date + 719468 == 146097 * era + doe && 0 <= doe <= 146096
    ensures yoe == (doe - doe / 1460 + doe / 36524 - doe / 146096) / 365 && 0 <= yoe <= 399
    ensures doy == doe - (365 * yoe + yoe / 4 - yoe / 100) && 0 <= doy <= 365
    ensures mp == (5 * doy + 2) / 153 && 0 <= mp <= 11
    ensures var m := if mp < 10 then mp + 3 else mp - 9;
            civil == Date(if m <= 2 then yoe + era * 400 + 1 else yoe + era * 400, m, doy - (153 * mp + 2) / 5 + 1)
    ensures Valid(civil) && DateOfDay(date) == civil
  {
    yoe := YearOfEra(doe);
    var y := yoe + era * 400;
    doy := doe - (365 * yoe + yoe / 4 - yoe / 100);
    YearLength(yoe);
    EraSplit(yoe, 0, yoe);
    LeapInEra(yoe + 1, era);
    mp, civil := MonthAndDay(y, doy);
    EraSplit(y, era, yoe);
    WalkReaches(civil);
  }

  lemma ShiftedDivisions(yoe: int, era: int)
    ensures (yoe + era * 400) / 4 == yoe / 4 + 100 * era
    ensures (yoe + era * 400) / 100 == yoe / 100 + 4 * era
    ensures (yoe + era * 400) / 400 == yoe / 400 + era
  {}

  lemma LeapInEra(yoe: int, era: int)
    ensures IsLeap(yoe + era * 400) <==> IsLeap(yoe)
  {
    ShiftedDivisions(yoe, era);
  }
}
