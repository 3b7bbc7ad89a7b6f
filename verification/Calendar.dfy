/** The proleptic Gregorian calendar (section 3.2.1 of ISO 8601:2004) as a walk of
    single days from 1970-01-01, and a closed form for the position of a date. */
module Calendar {
  datatype Date = Date(year: int, month: int, day: int)

  const EPOCH := Date(1970, 1, 1)

  predicate IsLeap(year: int) {
    year % 4 == 0 && (year % 100 != 0 || year % 400 == 0)
  }

  function DaysInMonth(year: int, month: int): int {
    if month == 2 then (if IsLeap(year) then 29 else 28)
    else if month in {4, 6, 9, 11} then 30
    else 31
  }

  predicate Valid(date: Date) {
    1 <= date.month <= 12 && 1 <= date.day <= DaysInMonth(date.year, date.month)
  }

  function NextDay(date: Date): Date {
    if date.day < DaysInMonth(date.year, date.month) then date.(day := date.day + 1)
    else if date.month < 12 then Date(date.year, date.month + 1, 1)
    else Date(date.year + 1, 1, 1)
  }

  function PreviousDay(date: Date): Date {
    if date.day > 1 then date.(day := date.day - 1)
    else if date.month > 1 then Date(date.year, date.month - 1, DaysInMonth(date.year, date.month - 1))
    else Date(date.year - 1, 12, 31)
  }

  /** The date that lies n days after 1970-01-01 (before it, for negative n). */
  function DateOfDay(n: int): Date
    decreases if n >= 0 then n else -n
  {
    if n == 0 then EPOCH
    else if n > 0 then NextDay(DateOfDay(n - 1))
    else PreviousDay(DateOfDay(n + 1))
  }

  /** Lexicographic order on (year, month, day). */
  predicate Before(a: Date, b: Date) {
    a.year < b.year || (a.year == b.year &&
      (a.month < b.month || (a.month == b.month && a.day < b.day)))
  }

  // ----- The closed form: years start in March, so that the leap day comes last -----

  /** Days before 1 March of `year`, counted from 1 March of year 0. */
  function DaysBeforeYear(year: int): int {
    365 * year + year / 4 - year / 100 + year / 400
  }

  function MarchYear(date: Date): int {
    if date.month <= 2 then date.year - 1 else date.year
  }

  function DaysBeforeMonth(month: int): int {
    (153 * (if month > 2 then month - 3 else month + 9) + 2) / 5
  }

  function DayNumber(date: Date): int {
    DaysBeforeYear(MarchYear(date)) + DaysBeforeMonth(date.month) + date.day - 1 - 719468
  }

  lemma DivStep(year: int)
    ensures (year + 1) / 4 == year / 4 + if (year + 1) % 4 == 0 then 1 else 0
    ensures (year + 1) / 100 == year / 100 + if (year + 1) % 100 == 0 then 1 else 0
    ensures (year + 1) / 400 == year / 400 + if (year + 1) % 400 == 0 then 1 else 0
  {}

  lemma Divisibility(year: int)
    ensures year % 400 == 0 ==> year % 100 == 0
    ensures year % 100 == 0 ==> year % 4 == 0
  {
    MultipleOf100(year, year / 400);
    MultipleOf4(year, year / 100);
  }

  lemma MultipleOf100(n: int, q: int)
    requires n == 400 * q || n % 400 != 0
    ensures n % 400 == 0 ==> n % 100 == 0
  {
    assert n == 400 * q ==> n / 100 == 4 * q;
  }

  lemma MultipleOf4(n: int, q: int)
    requires n == 100 * q || n % 100 != 0
    ensures n % 100 == 0 ==> n % 4 == 0
  {
    assert n == 100 * q ==> n / 4 == 25 * q;
  }

  lemma YearLength(year: int)
    ensures DaysBeforeYear(year + 1) - DaysBeforeYear(year) == if IsLeap(year + 1) then 366 else 365
  {
    DivStep(year);
    Divisibility(year + 1);
  }

  lemma {:induction false} YearsIncrease(a: int, b: int)
    requires a <= b
    ensures DaysBeforeYear(a) + 365 * (b - a) <= DaysBeforeYear(b)
    decreases b - a
  {
    if a == b {
    } else {
      YearLength(a);
      YearsIncrease(a + 1, b);
    }
  }

  lemma MonthLength(year: int, month: int)
    requires 1 <= month <= 12 && month != 2
    ensures DaysBeforeMonth(if month == 12 then 1 else month + 1) == DaysBeforeMonth(month) + DaysInMonth(year, month)
  {}

  lemma NextDayNumber(date: Date)
    requires Valid(date)
    ensures Valid(NextDay(date))
    ensures DayNumber(NextDay(date)) == DayNumber(date) + 1
  {
    if date.day == DaysInMonth(date.year, date.month) {
      if date.month == 2 {
        YearLength(date.year - 1);
      } else {
        MonthLength(date.year, date.month);
      }
    }
  }

  lemma PreviousThenNext(date: Date)
    requires Valid(date)
    ensures Valid(PreviousDay(date)) && NextDay(PreviousDay(date)) == date
  {}

  function DayOfYear(date: Date): int {
    DaysBeforeMonth(date.month) + date.day - 1
  }

  lemma DayWithinYear(date: Date)
    requires Valid(date)
    ensures 0 <= DayOfYear(date) < DaysBeforeYear(MarchYear(date) + 1) - DaysBeforeYear(MarchYear(date))
  {
    YearLength(MarchYear(date));
  }

  lemma SameMarchYear(a: Date, b: Date)
    requires Valid(a) && Valid(b) && Before(a, b) && MarchYear(a) == MarchYear(b)
    ensures DayOfYear(a) < DayOfYear(b)
  {}

  /** The closed form is strictly increasing in lexicographic date order. */
  lemma DayNumberIncreases(a: Date, b: Date)
    requires Valid(a) && Valid(b) && Before(a, b)
    ensures DayNumber(a) < DayNumber(b)
  {
    if MarchYear(a) < MarchYear(b) {
      DayWithinYear(a);
      DayWithinYear(b);
      YearsIncrease(MarchYear(a) + 1, MarchYear(b));
    } else {
      SameMarchYear(a, b);
    }
  }

  lemma DayNumberInjective(a: Date, b: Date)
    requires Valid(a) && Valid(b)
    ensures DayNumber(a) == DayNumber(b) ==> a == b
  {
    if Before(a, b) {
      DayNumberIncreases(a, b);
    } else if Before(b, a) {
      DayNumberIncreases(b, a);
    }
  }

  lemma PreviousDayNumber(date: Date)
    requires Valid(date)
    ensures Valid(PreviousDay(date)) && DayNumber(PreviousDay(date)) == DayNumber(date) - 1
  {
    PreviousThenNext(date);
    NextDayNumber(PreviousDay(date));
  }

  /** The walk only visits valid dates, and the closed form counts its steps. */
  lemma {:induction false} DateOfDayNumber(n: int)
    ensures Valid(DateOfDay(n)) && DayNumber(DateOfDay(n)) == n
    decreases if n >= 0 then n else -n
  {
    if n == 0 {
    } else if n > 0 {
      DateOfDayNumber(n - 1);
      NextDayNumber(DateOfDay(n - 1));
      assert DateOfDay(n) == NextDay(DateOfDay(n - 1));
    } else {
      DateOfDayNumber(n + 1);
      PreviousDayNumber(DateOfDay(n + 1));
      assert DateOfDay(n) == PreviousDay(DateOfDay(n + 1));
    }
  }

  /** Every valid date is on the walk, at the position the closed form gives. */
  lemma WalkReaches(date: Date)
    requires Valid(date)
    ensures DateOfDay(DayNumber(date)) == date
  {
    DateOfDayNumber(DayNumber(date));
    DayNumberInjective(DateOfDay(DayNumber(date)), date);
  }
}
