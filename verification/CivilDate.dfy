/** Calendar dates as day numbers (crates/revoot/src/config.rs, lines 902-941). The written form is the
    full-date of section 5.6 of RFC 3339. */
module CivilDates {
  import opened Wrappers

  datatype Date = Date(year: int, month: int, day: int) {
    predicate Valid() {
      1 <= month <= 12 && 1 <= day <= DaysInMonth(year, month)
    }

    /** The day after. */
    function Next(): Date {
      if day < DaysInMonth(year, month) then Date(year, month, day + 1)
      else if month < 12 then Date(year, month + 1, 1)
      else Date(year + 1, 1, 1)
    }

    predicate Before(other: Date) {
      year < other.year || (year == other.year && (month < other.month || (month == other.month && day < other.day)))
    }
  }

  predicate Leap(year: int) {
    year % 4 == 0 && (year % 100 != 0 || year % 400 == 0)
  }

  function DaysInMonth(year: int, month: int): int {
    if month in {1, 3, 5, 7, 8, 10, 12} then 31
    else if month in {4, 6, 9, 11} then 30
    else if month == 2 then if Leap(year) then 29 else 28
    else 0
  }

  /** `days_from_civil`; Dafny's integer division is Euclidean, as the division of the era is. */
  function DaysFromCivil(d: Date): int {
    var adjustedYear := d.year - if d.month <= 2 then 1 else 0;
    var era := adjustedYear / 400;
    var yearOfEra := adjustedYear - era * 400;
    var shiftedMonth := d.month + if d.month > 2 then -3 else 9;
    var dayOfYear := (153 * shiftedMonth + 2) / 5 + d.day - 1;
    var dayOfEra := yearOfEra * 365 + yearOfEra / 4 - yearOfEra / 100 + dayOfYear;
    era * 146_097 + dayOfEra - 719_468
  }

  // ----- one step at a time

  /** The day number of 1 March, minus the epoch shift. */
  function MarchStart(year: int): int {
    var era := year / 400;
    var yearOfEra := year - era * 400;
    era * 146_097 + yearOfEra * 365 + yearOfEra / 4 - yearOfEra / 100
  }

  function YearLength(year: int): int {
    if Leap(year) then 366 else 365
  }

  lemma EraModFour(era: int, k: int)
    ensures (era * 400 + k) % 4 == k % 4
  {
    assert era * 400 + k == 4 * (100 * era + k / 4) + k % 4;
  }

  lemma EraModHundred(era: int, k: int)
    ensures (era * 400 + k) % 100 == k % 100
  {
    assert era * 400 + k == 100 * (4 * era + k / 100) + k % 100;
  }

  lemma EraModWhole(era: int, k: int)
    ensures (era * 400 + k) % 400 == k % 400
  {
    assert era * 400 + k == 400 * (era + k / 400) + k % 400;
  }

  predicate LeapPlace(k: int) {
    k % 4 == 0 && (k % 100 != 0 || k % 400 == 0)
  }

  lemma LeapInEra(era: int, k: int)
    ensures Leap(era * 400 + k) <==> LeapPlace(k)
  {
    EraModFour(era, k);
    EraModHundred(era, k);
    EraModWhole(era, k);
  }

  lemma MarchInEra(era: int, k: int)
    requires 0 <= k < 400
    ensures MarchStart(era * 400 + k) == era * 146_097 + k * 365 + k / 4 - k / 100
  {
    assert (era * 400 + k) / 400 == era;
  }

  lemma LeapDays(k: int)
    requires 0 <= k < 399
    ensures (k + 1) / 4 - (k + 1) / 100 == k / 4 - k / 100 + if LeapPlace(k + 1) then 1 else 0
  {
    assert (k + 1) / 4 == k / 4 + if (k + 1) % 4 == 0 then 1 else 0;
    assert (k + 1) / 100 == k / 100 + if (k + 1) % 100 == 0 then 1 else 0;
  }

  /** From one March to the next there is a leap day exactly when the later year is a leap year. */
  lemma MarchToMarch(year: int)
    ensures MarchStart(year + 1) == MarchStart(year) + YearLength(year + 1)
  {
    MarchStep(year / 400, year % 400);
  }

  lemma MarchStep(era: int, k: int)
    requires 0 <= k < 400
    ensures MarchStart(era * 400 + k + 1) == MarchStart(era * 400 + k) + YearLength(era * 400 + k + 1)
  {
    MarchInEra(era, k);
    LeapInEra(era, k + 1);
    assert era * 400 + k + 1 == era * 400 + (k + 1);
    if k == 399 {
      MarchInEra(era + 1, 0);
    } else {
      MarchInEra(era, k + 1);
      LeapDays(k);
    }
  }

  lemma SplitCivil(d: Date)
    requires 1 <= d.month <= 12
    ensures var march := MarchStart(if d.month <= 2 then d.year - 1 else d.year);
      DaysFromCivil(d) == march + MonthShift(d.month) + d.day - 1 - 719_468
  {
  }

  /** The day number of the first of a month behind the first of the March before it. */
  function MonthShift(month: int): int
    requires 1 <= month <= 12
  {
    (153 * (month + if month > 2 then -3 else 9) + 2) / 5
  }

  /** The formula for months has their lengths, except for the leap day that ends its year. */
  lemma MonthShifts(year: int, month: int)
    requires 1 <= month < 12 && month != 2
    ensures MonthShift(month + 1) == MonthShift(month) + DaysInMonth(year, month)
  {
  }

  /** The first day of a month follows the last day of the month before. */
  lemma MonthStep(year: int, month: int)
    requires 1 <= month < 12
    ensures DaysFromCivil(Date(year, month + 1, 1)) == DaysFromCivil(Date(year, month, 1)) + DaysInMonth(year, month)
  {
    SplitCivil(Date(year, month, 1));
    SplitCivil(Date(year, month + 1, 1));
    if month == 2 {
      assert MonthShift(2) == 337 && MonthShift(3) == 0;
      MarchToMarch(year - 1);
    } else {
      MonthShifts(year, month);
    }
  }

  lemma YearStep(year: int)
    ensures DaysFromCivil(Date(year + 1, 1, 1)) == DaysFromCivil(Date(year, 12, 1)) + 31
  {
    SplitCivil(Date(year, 12, 1));
    SplitCivil(Date(year + 1, 1, 1));
  }

  lemma DayOffset(d: Date)
    ensures DaysFromCivil(d) == DaysFromCivil(Date(d.year, d.month, 1)) + d.day - 1
  {
  }

  /** The day number is zero at the epoch. */
  lemma EpochIsZero()
    ensures DaysFromCivil(Date(1970, 1, 1)) == 0
  {
  }

  lemma NextIsValid(d: Date)
    requires d.Valid()
    ensures d.Next().Valid()
  {
  }

  /** The day number rises by exactly one from every date to the next. */
  lemma NextDay(d: Date)
    requires d.Valid()
    ensures d.Next().Valid() && DaysFromCivil(d.Next()) == DaysFromCivil(d) + 1
  {
    NextIsValid(d);
    DayOffset(d);
    DayOffset(d.Next());
    if d.day == DaysInMonth(d.year, d.month) {
      if d.month < 12 {
        MonthStep(d.year, d.month);
      } else {
        YearStep(d.year);
      }
    }
  }

  // ----- the naive count

  function DaysBeforeMonth(year: int, month: int): int
    requires 1 <= month <= 12
    decreases month
  {
    if month == 1 then 0 else DaysBeforeMonth(year, month - 1) + DaysInMonth(year, month - 1)
  }

  function DaysBeforeYear(year: int): int
    requires year >= 1970
    decreases year
  {
    if year == 1970 then 0 else DaysBeforeYear(year - 1) + YearLength(year - 1)
  }

  lemma {:induction false} MonthStart(year: int, month: int)
    requires 1 <= month <= 12
    ensures DaysFromCivil(Date(year, month, 1)) == DaysFromCivil(Date(year, 1, 1)) + DaysBeforeMonth(year, month)
    decreases month
  {
    if month > 1 {
      MonthStart(year, month - 1);
      MonthStep(year, month - 1);
    }
  }

  lemma {:induction false} YearStart(year: int)
    ensures DaysFromCivil(Date(year + 1, 1, 1)) == DaysFromCivil(Date(year, 1, 1)) + YearLength(year)
  {
    SplitCivil(Date(year + 1, 1, 1));
    SplitCivil(Date(year, 1, 1));
    MarchToMarch(year - 1);
  }

  lemma {:induction false} YearsSinceEpoch(year: int)
    requires year >= 1970
    ensures DaysFromCivil(Date(year, 1, 1)) == DaysBeforeYear(year)
    decreases year
  {
    EpochIsZero();
    if year > 1970 {
      YearsSinceEpoch(year - 1);
      YearStart(year - 1);
    }
  }

  /** The closed formula is the number of days since the epoch, counted year by year and month by month. */
  lemma CountsDays(d: Date)
    requires d.Valid() && d.year >= 1970
    ensures DaysFromCivil(d) == DaysBeforeYear(d.year) + DaysBeforeMonth(d.year, d.month) + d.day - 1
  {
    DayOffset(d);
    MonthStart(d.year, d.month);
    YearsSinceEpoch(d.year);
  }

  // ----- order

  lemma {:induction false} LaterYear(a: int, b: int)
    requires a < b
    ensures DaysFromCivil(Date(a, 1, 1)) + YearLength(a) <= DaysFromCivil(Date(b, 1, 1))
    decreases b - a
  {
    YearStart(b - 1);
    if a < b - 1 {
      LaterYear(a, b - 1);
    }
  }

  lemma {:induction false} LaterMonth(year: int, a: int, b: int)
    requires 1 <= a < b <= 12
    ensures DaysBeforeMonth(year, a) + DaysInMonth(year, a) <= DaysBeforeMonth(year, b)
    decreases b
  {
    if a < b - 1 {
      LaterMonth(year, a, b - 1);
    }
  }

  lemma WithinYear(d: Date)
    requires d.Valid()
    ensures DaysFromCivil(Date(d.year, 1, 1)) <= DaysFromCivil(d) < DaysFromCivil(Date(d.year, 1, 1)) + YearLength(d.year)
  {
    DayOffset(d);
    MonthStart(d.year, d.month);
    MonthStart(d.year, 12);
    YearStep(d.year);
    YearStart(d.year);
    if d.month < 12 {
      LaterMonth(d.year, d.month, 12);
    }
    if d.month > 1 {
      LaterMonth(d.year, 1, d.month);
    }
  }

  lemma EarlierIsSmaller(a: Date, b: Date)
    requires a.Valid() && b.Valid() && a.Before(b)
    ensures DaysFromCivil(a) < DaysFromCivil(b)
  {
    if a.year < b.year {
      WithinYear(a);
      WithinYear(b);
      LaterYear(a.year, b.year);
    } else {
      DayOffset(a);
      DayOffset(b);
      MonthStart(a.year, a.month);
      MonthStart(b.year, b.month);
      if a.month < b.month {
        LaterMonth(a.year, a.month, b.month);
      }
    }
  }

  /** Comparing day numbers is comparing dates, and different dates have different numbers. */
  lemma ComparesDates(a: Date, b: Date)
    requires a.Valid() && b.Valid()
    ensures DaysFromCivil(a) < DaysFromCivil(b) <==> a.Before(b)
    ensures DaysFromCivil(a) == DaysFromCivil(b) <==> a == b
  {
    if a.Before(b) {
      EarlierIsSmaller(a, b);
    } else if b.Before(a) {
      EarlierIsSmaller(b, a);
    }
  }

  /** Every day from the epoch on has a date. */
  lemma {:induction false} DateOfDay(n: nat) returns (d: Date)
    ensures d.Valid() && d.year >= 1970 && DaysFromCivil(d) == n
  {
    if n == 0 {
      EpochIsZero();
      d := Date(1970, 1, 1);
    } else {
      var before := DateOfDay(n - 1);
      NextDay(before);
      d := before.Next();
    }
  }

  // ----- written dates

  predicate IsDigit(c: char) { '0' <= c <= '9' }

  function Digit(c: char): nat
    requires IsDigit(c)
  {
    c as int - '0' as int
  }

  function DigitChar(n: nat): char
    requires n < 10
  {
    ('0' as int + n) as char
  }

  predicate DateShape(s: string) {
    |s| == 10 && s[4] == '-' && s[7] == '-' && forall i :: 0 <= i < 10 && i != 4 && i != 7 ==> IsDigit(s[i])
  }

  function Two(s: string, i: nat): nat
    requires i + 2 <= |s| && IsDigit(s[i]) && IsDigit(s[i + 1])
  {
    10 * Digit(s[i]) + Digit(s[i + 1])
  }

  /** The date that a text of the right shape names, valid or not. */
  function Named(s: string): Date
    requires DateShape(s)
  {
    Date(100 * Two(s, 0) + Two(s, 2), Two(s, 5), Two(s, 8))
  }

  /** `parse_date_days`. */
  function ParseDateDays(s: string): Option<int> {
    if !DateShape(s) then None
    else
      var d := Named(s);
      if d.year < 1970 || d.month < 1 || d.month > 12 || d.day == 0 || d.day > DaysInMonth(d.year, d.month) then None
      else Some(DaysFromCivil(d))
  }

  function WrittenTwo(n: nat): string
    requires n < 100
  {
    [DigitChar(n / 10), DigitChar(n % 10)]
  }

  /** A date as RFC 3339 writes it. */
  function Written(d: Date): (s: string)
    requires 0 <= d.year <= 9999 && d.Valid()
    ensures DateShape(s)
  {
    WrittenTwo(d.year / 100) + WrittenTwo(d.year % 100) + "-" + WrittenTwo(d.month) + "-" + WrittenTwo(d.day)
  }

  lemma TwoOfWritten(n: nat, s: string, i: nat)
    requires n < 100 && i + 2 <= |s| && s[i] == WrittenTwo(n)[0] && s[i + 1] == WrittenTwo(n)[1]
    ensures IsDigit(s[i]) && IsDigit(s[i + 1]) && Two(s, i) == n
  {
  }

  lemma WrittenOfTwo(s: string, i: nat)
    requires i + 2 <= |s| && IsDigit(s[i]) && IsDigit(s[i + 1])
    ensures Two(s, i) < 100 && WrittenTwo(Two(s, i)) == [s[i], s[i + 1]]
  {
    var a, b := Digit(s[i]), Digit(s[i + 1]);
    assert (10 * a + b) / 10 == a && (10 * a + b) % 10 == b;
  }

  lemma NamedWritten(d: Date)
    requires 0 <= d.year <= 9999 && d.Valid()
    ensures Named(Written(d)) == d
  {
    var s := Written(d);
    TwoOfWritten(d.year / 100, s, 0);
    TwoOfWritten(d.year % 100, s, 2);
    TwoOfWritten(d.month, s, 5);
    TwoOfWritten(d.day, s, 8);
  }

  /** Reading a written date gives its day number. */
  lemma WrittenIsRead(d: Date)
    requires 1970 <= d.year <= 9999 && d.Valid()
    ensures ParseDateDays(Written(d)) == Some(DaysFromCivil(d))
  {
    NamedWritten(d);
  }

  lemma WrittenNamed(s: string)
    requires DateShape(s) && Named(s).Valid()
    ensures 0 <= Named(s).year <= 9999 && s == Written(Named(s))
  {
    WrittenOfTwo(s, 0);
    WrittenOfTwo(s, 2);
    WrittenOfTwo(s, 5);
    WrittenOfTwo(s, 8);
    var high, low := Two(s, 0), Two(s, 2);
    assert (100 * high + low) / 100 == high && (100 * high + low) % 100 == low;
  }

  /** Only written dates are read: an accepted text is the written form of the one date it names. */
  lemma ReadIsWritten(s: string)
    requires ParseDateDays(s).Some?
    ensures var d := Named(s);
      1970 <= d.year <= 9999 && d.Valid() && s == Written(d) && ParseDateDays(s).value == DaysFromCivil(d)
  {
    WrittenNamed(s);
  }

  /** Two dates in full: the day behind a leap day, and a day that does not exist. */
  lemma ExampleDates()
    ensures ParseDateDays("1972-03-01") == Some(365 + 365 + 31 + 29)
    ensures ParseDateDays("1973-02-29") == None
  {
    var s, t := "1972-03-01", "1973-02-29";
    assert DateShape(s) && Two(s, 0) == 19 && Two(s, 2) == 72 && Two(s, 5) == 3 && Two(s, 8) == 1;
    assert DateShape(t) && Two(t, 0) == 19 && Two(t, 2) == 73 && Two(t, 5) == 2 && Two(t, 8) == 29;
  }
}
