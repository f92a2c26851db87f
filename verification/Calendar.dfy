/** Day numbers of Gregorian dates, `days_from_civil`, against a calendar that
    only knows how long each month is. */
module Calendar {
  import opened Wrappers

  datatype Date = Date(year: int, month: nat, day: nat)

  /** Division rounding towards zero. */
  function Quot(a: int, b: int): int
    requires b > 0
  {
    if a >= 0 then a / b else -(-a / b)
  }

  function AdjustedYear(year: int, month: nat): int {
    year - if month <= 2 then 1 else 0
  }

  function Era(adjustedYear: int): int {
    if adjustedYear >= 0 then Quot(adjustedYear, 400) else Quot(adjustedYear - 399, 400)
  }

  function DayNumber(date: Date): int {
    var adjustedYear := AdjustedYear(date.year, date.month);
    var era := Era(adjustedYear);
    var yearOfEra := adjustedYear - era * 400;
    var monthPrime := date.month + if date.month > 2 then -3 else 9;
    var dayOfYear := Quot(153 * monthPrime + 2, 5) + date.day - 1;
    var dayOfEra := yearOfEra * 365 + Quot(yearOfEra, 4) - Quot(yearOfEra, 100) + dayOfYear;
    era * 146_097 + dayOfEra - 719_468
  }

  function DaysFromCivil(year: int, month: nat, day: nat): Option<nat> {
    if !(1 <= month <= 12) || !(1 <= day <= 31) then None
    else
      var days := DayNumber(Date(year, month, day));
      if days >= 0 then Some(days) else None
  }

  // The Gregorian calendar.

  predicate Leap(year: int) {
    year % 4 == 0 && (year % 100 != 0 || year % 400 == 0)
  }

  function DaysInMonth(year: int, month: nat): nat {
    if month == 2 then (if Leap(year) then 29 else 28)
    else if month in {4, 6, 9, 11} then 30
    else 31
  }

  predicate Valid(date: Date) {
    1 <= date.month <= 12 && 1 <= date.day <= DaysInMonth(date.year, date.month)
  }

  const EPOCH := Date(1970, 1, 1)

  function Successor(date: Date): (r: Date)
    requires Valid(date)
    ensures Valid(r)
  {
    if date.day < DaysInMonth(date.year, date.month) then date.(day := date.day + 1)
    else if date.month < 12 then Date(date.year, date.month + 1, 1)
    else Date(date.year + 1, 1, 1)
  }

  predicate Earlier(a: Date, b: Date) {
    || a.year < b.year
    || (a.year == b.year && a.month < b.month)
    || (a.year == b.year && a.month == b.month && a.day < b.day)
  }

  // Years that begin in March.

  /** The year of the era is a year of one 400-year cycle, below the common era too. */
  lemma EraIsCycle(adjustedYear: int)
    ensures 0 <= adjustedYear - 400 * Era(adjustedYear) < 400
  {
    if adjustedYear < 0 {
      var n := 399 - adjustedYear;
      assert n == 400 * (n / 400) + n % 400;
    }
  }

  /** The day number of the first of March. */
  function MarchFirst(year: int): int {
    var yearOfEra := year - 400 * Era(year);
    Era(year) * 146_097 + yearOfEra * 365 + Quot(yearOfEra, 4) - Quot(yearOfEra, 100) - 719_468
  }

  lemma NextEra(year: int)
    ensures var yoe := year - 400 * Era(year);
            if yoe < 399 then Era(year + 1) == Era(year) else Era(year + 1) == Era(year) + 1
  {
    EraIsCycle(year);
    EraIsCycle(year + 1);
  }

  lemma RemainderOf4(n: int, q: int, r: int)
    requires n == 4 * q + r && 0 <= r < 4
    ensures n % 4 == r
  {
  }

  lemma SameModulo4(n: int, k: int)
    ensures (n + 400 * k) % 4 == n % 4
  {
    RemainderOf4(n + 400 * k, n / 4 + 100 * k, n % 4);
  }

  lemma RemainderOf100(n: int, q: int, r: int)
    requires n == 100 * q + r && 0 <= r < 100
    ensures n % 100 == r
  {
  }

  lemma SameModulo100(n: int, k: int)
    ensures (n + 400 * k) % 100 == n % 100
  {
    RemainderOf100(n + 400 * k, n / 100 + 4 * k, n % 100);
  }

  lemma RemainderOf400(n: int, q: int, r: int)
    requires n == 400 * q + r && 0 <= r < 400
    ensures n % 400 == r
  {
  }

  lemma SameModulo400(n: int, k: int)
    ensures (n + 400 * k) % 400 == n % 400
  {
    RemainderOf400(n + 400 * k, n / 400 + k, n % 400);
  }

  lemma LeapInEra(year: int)
    ensures var next := (year - 400 * Era(year)) + 1;
            Leap(year + 1) <==> next % 4 == 0 && (next % 100 != 0 || next == 400)
  {
    EraIsCycle(year);
    var e := Era(year);
    var next := year - 400 * e + 1;
    assert year + 1 == next + 400 * e;
    SameModulo4(next, e);
    SameModulo100(next, e);
    SameModulo400(next, e);
    assert 1 <= next <= 400;
  }

  lemma NextLeapCount(n: nat)
    ensures Quot(n + 1, 4) == Quot(n, 4) + if (n + 1) % 4 == 0 then 1 else 0
  {
  }

  lemma NextCenturyCount(n: nat)
    ensures Quot(n + 1, 100) == Quot(n, 100) + if (n + 1) % 100 == 0 then 1 else 0
  {
  }

  lemma MarchYearLength(year: int)
    ensures MarchFirst(year + 1) == MarchFirst(year) + if Leap(year + 1) then 366 else 365
  {
    EraIsCycle(year);
    NextEra(year);
    LeapInEra(year);
    var yoe := year - 400 * Era(year);
    if yoe < 399 {
      NextLeapCount(yoe);
      NextCenturyCount(yoe);
    }
  }

  // One day after another.

  /** How many days of its March year come before a month. */
  function MonthOffset(month: nat): int
    requires 1 <= month <= 12
  {
    if month > 2 then Quot(153 * (month - 3) + 2, 5) else Quot(153 * (month + 9) + 2, 5)
  }

  lemma ByMarchYear(date: Date)
    requires 1 <= date.month <= 12
    ensures DayNumber(date) == MarchFirst(AdjustedYear(date.year, date.month)) + MonthOffset(date.month) + date.day - 1
  {
  }

  lemma MonthLengths(year: int, month: nat)
    requires 1 <= month < 12 && month != 2
    ensures MonthOffset(month + 1) == MonthOffset(month) + DaysInMonth(year, month)
  {
  }

  function FirstAfter(year: int, month: nat): Date {
    if month < 12 then Date(year, month + 1, 1) else Date(year + 1, 1, 1)
  }

  lemma MarchYearStep(year: int, month: nat)
    requires 1 <= month <= 12
    ensures var next := FirstAfter(year, month);
            MarchFirst(AdjustedYear(next.year, next.month)) + MonthOffset(next.month) ==
            MarchFirst(AdjustedYear(year, month)) + MonthOffset(month) + DaysInMonth(year, month)
  {
    if month == 2 {
      MarchYearLength(year - 1);
    } else if month < 12 {
      MonthLengths(year, month);
    }
  }

  /** The first of the next month comes after the last of this one. */
  lemma NextMonth(year: int, month: nat)
    requires 1 <= month <= 12
    ensures DayNumber(FirstAfter(year, month)) == DayNumber(Date(year, month, 1)) + DaysInMonth(year, month)
  {
    ByMarchYear(Date(year, month, 1));
    ByMarchYear(FirstAfter(year, month));
    MarchYearStep(year, month);
  }

  lemma EpochIsDayZero()
    ensures DayNumber(EPOCH) == 0
  {
  }

  lemma WithinMonth(date: Date)
    requires Valid(date)
    ensures DayNumber(date) == DayNumber(Date(date.year, date.month, 1)) + date.day - 1
  {
    ByMarchYear(date);
    ByMarchYear(Date(date.year, date.month, 1));
  }

  /** The day number is zero at the epoch and rises by one from each date to the next. */
  lemma DayNumbersCount(date: Date)
    requires Valid(date)
    ensures DayNumber(EPOCH) == 0
    ensures DayNumber(Successor(date)) == DayNumber(date) + 1
  {
    EpochIsDayZero();
    WithinMonth(date);
    NextMonth(date.year, date.month);
    WithinMonth(Successor(date));
    assert date.day == DaysInMonth(date.year, date.month) ==> Successor(date) == FirstAfter(date.year, date.month);
    assert date.day < DaysInMonth(date.year, date.month) ==> Successor(date) == date.(day := date.day + 1);
  }

  lemma {:induction false} MonthsAscend(year: int, m: nat, n: nat)
    requires 1 <= m <= n <= 12
    ensures DayNumber(Date(year, m, 1)) <= DayNumber(Date(year, n, 1))
    ensures m < n ==> DayNumber(Date(year, m, 1)) + DaysInMonth(year, m) <= DayNumber(Date(year, n, 1))
    decreases n - m
  {
    if m < n {
      NextMonth(year, m);
      MonthsAscend(year, m + 1, n);
    }
  }

  lemma {:induction false} YearsAscend(x: int, y: int)
    requires x <= y
    ensures DayNumber(Date(x, 1, 1)) <= DayNumber(Date(y, 1, 1))
    ensures x < y ==> DayNumber(Date(x, 12, 1)) + 31 <= DayNumber(Date(y, 1, 1))
    decreases y - x
  {
    if x < y {
      NextMonth(x, 12);
      MonthsAscend(x, 1, 12);
      YearsAscend(x + 1, y);
    }
  }

  lemma EarlierIsLess(a: Date, b: Date)
    requires Valid(a) && Valid(b) && Earlier(a, b)
    ensures DayNumber(a) < DayNumber(b)
  {
    WithinMonth(a);
    WithinMonth(b);
    if a.year < b.year {
      MonthsAscend(a.year, a.month, 12);
      YearsAscend(a.year, b.year);
      MonthsAscend(b.year, 1, b.month);
    } else if a.month < b.month {
      MonthsAscend(a.year, a.month, b.month);
    }
  }

  /** Later dates have greater day numbers. */
  lemma DayNumbersAscend(a: Date, b: Date)
    requires Valid(a) && Valid(b)
    ensures Earlier(a, b) <==> DayNumber(a) < DayNumber(b)
  {
    if Earlier(a, b) {
      EarlierIsLess(a, b);
    } else if Earlier(b, a) {
      EarlierIsLess(b, a);
    }
  }

  /** A valid date has no day number exactly when it lies before the epoch. */
  lemma NoneExactlyBeforeEpoch(date: Date)
    requires Valid(date)
    ensures DaysFromCivil(date.year, date.month, date.day).None? <==> Earlier(date, EPOCH)
    ensures DaysFromCivil(date.year, date.month, date.day).Some? ==>
              DaysFromCivil(date.year, date.month, date.day).value == DayNumber(date)
  {
    DayNumbersCount(EPOCH);
    DayNumbersAscend(date, EPOCH);
  }

  /** Every number of days counts up to exactly one date. */
  lemma {:induction false} EveryDayHasADate(n: nat) returns (date: Date)
    ensures Valid(date) && DaysFromCivil(date.year, date.month, date.day) == Some(n)
    ensures forall d | Valid(d) && DayNumber(d) == n :: d == date
  {
    if n == 0 {
      date := EPOCH;
      DayNumbersCount(EPOCH);
    } else {
      var before := EveryDayHasADate(n - 1);
      NoneExactlyBeforeEpoch(before);
      DayNumbersCount(before);
      date := Successor(before);
    }
    forall d | Valid(d) && DayNumber(d) == n ensures d == date {
      DayNumbersAscend(d, date);
      DayNumbersAscend(date, d);
    }
  }
}
