/**
 * The parts of Python's `datetime.date` the validator uses: proleptic Gregorian
 * dates in years 1..9999, their ordering, day ordinals (for `today - timedelta(days=n)`),
 * `isoformat()`, and the completed-years age of Health_system.py's `age_in_years`.
 */
module Calendar {
  import opened Text

  datatype Date = Date(year: int, month: int, day: int)

  /** `datetime.MINYEAR` and `datetime.MAXYEAR`. */
  const MinYear := 1
  const MaxYear := 9999

  predicate IsLeapYear(y: int)
  {
    y % 4 == 0 && (y % 100 != 0 || y % 400 == 0)
  }

  function DaysInMonth(y: int, m: int): (n: int)
    requires 1 <= m <= 12
    ensures 28 <= n <= 31
    ensures n == 29 <==> m == 2 && IsLeapYear(y)
    ensures n == 28 <==> m == 2 && !IsLeapYear(y)
    ensures n == 30 <==> m in {4, 6, 9, 11}
    ensures n == 31 <==> m in {1, 3, 5, 7, 8, 10, 12}
  {
    if m == 2 then (if IsLeapYear(y) then 29 else 28)
    else if m == 4 || m == 6 || m == 9 || m == 11 then 30
    else 31
  }

  /** The dates `datetime.date(year, month, day)` accepts without raising ValueError. */
  predicate ValidDate(d: Date)
  {
    MinYear <= d.year <= MaxYear && 1 <= d.month <= 12 && 1 <= d.day <= DaysInMonth(d.year, d.month)
  }

  /** `a < b` on dates: (year, month, day) compared lexicographically. */
  predicate Before(a: Date, b: Date)
  {
    a.year < b.year
    || (a.year == b.year && (a.month < b.month || (a.month == b.month && a.day < b.day)))
  }

  function DaysInYear(y: int): int
  {
    if IsLeapYear(y) then 366 else 365
  }

  /** Days in the years 1 .. y-1 (Python's `_days_before_year`). */
  function DaysBeforeYear(y: int): int
    requires y >= 1
  {
    var p := y - 1;
    p * 365 + p / 4 - p / 100 + p / 400
  }

  /** Days in the months before month m of year y (Python's `_days_before_month`). */
  function DaysBeforeMonth(y: int, m: int): int
    requires 1 <= m <= 12
  {
    [0, 0, 31, 59, 90, 120, 151, 181, 212, 243, 273, 304, 334][m]
    + (if m > 2 && IsLeapYear(y) then 1 else 0)
  }

  /** `date.toordinal()`: 0001-01-01 is day 1. */
  function ToOrdinal(d: Date): (n: int)
    requires ValidDate(d)
    ensures n >= 1
  {
    DaysBeforeYear(d.year) + DaysBeforeMonth(d.year, d.month) + d.day
  }

  lemma {:induction false} DivStep(p: int)
    requires p >= 0
    ensures (p + 1) / 4 - p / 4 == (if (p + 1) % 4 == 0 then 1 else 0)
    ensures (p + 1) / 100 - p / 100 == (if (p + 1) % 100 == 0 then 1 else 0)
    ensures (p + 1) / 400 - p / 400 == (if (p + 1) % 400 == 0 then 1 else 0)
  {
  }

  /** Consecutive years are DaysInYear apart. */
  lemma {:induction false} YearStep(y: int)
    requires y >= 1
    ensures DaysBeforeYear(y + 1) == DaysBeforeYear(y) + DaysInYear(y)
  {
    var p := y - 1;
    DivStep(p);
    DivisorChain(y);
    assert DaysBeforeYear(y + 1) - DaysBeforeYear(y)
        == 365 + (y / 4 - p / 4) - (y / 100 - p / 100) + (y / 400 - p / 400);
  }

  /** A multiple of 400 is a multiple of 100, and a multiple of 100 a multiple of 4. */
  lemma {:induction false} DivisorChain(y: int)
    ensures y % 400 == 0 ==> y % 100 == 0
    ensures y % 100 == 0 ==> y % 4 == 0
  {
    if y % 400 == 0 {
      MultipleOf400(y);
    }
    if y % 100 == 0 {
      MultipleOf100(y);
    }
  }

  lemma {:induction false} MultipleOf400(y: int)
    requires y % 400 == 0
    ensures y % 100 == 0
  {
    assert y == 400 * (y / 400);
  }

  lemma {:induction false} MultipleOf100(y: int)
    requires y % 100 == 0
    ensures y % 4 == 0
  {
    assert y == 100 * (y / 100);
  }

  lemma {:induction false} DaysBeforeYearMono(y: int, z: int)
    requires 1 <= y <= z
    ensures DaysBeforeYear(y) + DaysInYear(y) * (if y < z then 1 else 0) <= DaysBeforeYear(z)
    decreases z - y
  {
    if y < z {
      YearStep(y);
      if y + 1 < z { DaysBeforeYearMono(y + 1, z); }
    }
  }

  lemma {:induction false} MonthStep(y: int, m: int)
    requires 1 <= m < 12
    ensures DaysBeforeMonth(y, m + 1) == DaysBeforeMonth(y, m) + DaysInMonth(y, m)
  {
  }

  lemma {:induction false} DaysBeforeMonthMono(y: int, m: int, n: int)
    requires 1 <= m < n <= 12
    ensures DaysBeforeMonth(y, m) + DaysInMonth(y, m) <= DaysBeforeMonth(y, n)
  {
  }

  lemma {:induction false} YearEnd(y: int)
    ensures DaysBeforeMonth(y, 12) + 31 == DaysInYear(y)
  {
  }

  /** A date of an earlier year has a smaller ordinal. */
  lemma {:induction false} EarlierYear(lo: Date, hi: Date)
    requires ValidDate(lo) && ValidDate(hi) && lo.year < hi.year
    ensures ToOrdinal(lo) < ToOrdinal(hi)
  {
    DaysBeforeYearMono(lo.year, hi.year);
    YearEnd(lo.year);
    if lo.month < 12 {
      DaysBeforeMonthMono(lo.year, lo.month, 12);
    }
    assert ToOrdinal(lo) <= DaysBeforeYear(lo.year) + DaysInYear(lo.year);
  }

  /** A date of an earlier month of the same year has a smaller ordinal. */
  lemma {:induction false} EarlierMonth(lo: Date, hi: Date)
    requires ValidDate(lo) && ValidDate(hi) && lo.year == hi.year && lo.month < hi.month
    ensures ToOrdinal(lo) < ToOrdinal(hi)
  {
    DaysBeforeMonthMono(lo.year, lo.month, hi.month);
  }

  /** Ordinals order dates exactly as Python's date comparison does. */
  lemma {:induction false} OrdinalOrder(a: Date, b: Date)
    requires ValidDate(a) && ValidDate(b)
    ensures Before(a, b) <==> ToOrdinal(a) < ToOrdinal(b)
    ensures a == b <==> ToOrdinal(a) == ToOrdinal(b)
  {
    if a.year < b.year {
      EarlierYear(a, b);
    } else if b.year < a.year {
      EarlierYear(b, a);
    } else if a.month < b.month {
      EarlierMonth(a, b);
    } else if b.month < a.month {
      EarlierMonth(b, a);
    }
  }

  /** The day before `d` (`d - timedelta(days=1)`); there is none before 0001-01-01. */
  function PrevDay(d: Date): (r: Date)
    requires ValidDate(d) && ToOrdinal(d) > 1
    ensures ValidDate(r) && ToOrdinal(r) == ToOrdinal(d) - 1
  {
    if d.day > 1 then Date(d.year, d.month, d.day - 1)
    else if d.month > 1 then
      MonthStep(d.year, d.month - 1);
      Date(d.year, d.month - 1, DaysInMonth(d.year, d.month - 1))
    else
      YearStep(d.year - 1);
      YearEnd(d.year - 1);
      Date(d.year - 1, 12, 31)
  }

  /**
   * `d - timedelta(days=n)`. Python raises OverflowError when the result would fall
   * before 0001-01-01, which the precondition excludes.
   */
  function SubtractDays(d: Date, n: nat): (r: Date)
    requires ValidDate(d) && ToOrdinal(d) > n
    ensures ValidDate(r) && ToOrdinal(r) == ToOrdinal(d) - n
  {
    StepBackTo(d, ToOrdinal(d) - n)
  }

  /** The date on or before d whose ordinal is `target`, reached one day at a time. */
  function StepBackTo(d: Date, target: int): (r: Date)
    requires ValidDate(d) && 1 <= target <= ToOrdinal(d)
    ensures ValidDate(r) && ToOrdinal(r) == target
    decreases ToOrdinal(d) - target
  {
    if ToOrdinal(d) == target then d else StepBackTo(PrevDay(d), target)
  }

  /** `"%02d" % n` for 0 <= n < 100. */
  function Pad2(n: nat): (s: string)
    requires n < 100
    ensures |s| == 2 && IsDigit(s[0]) && IsDigit(s[1])
    ensures DigitValue(s[0]) * 10 + DigitValue(s[1]) == n
  {
    [DigitChar(n / 10), DigitChar(n % 10)]
  }

  /** `"%04d" % n` for 0 <= n < 10000. */
  function Pad4(n: nat): (s: string)
    requires n < 10000
    ensures |s| == 4 && forall i :: 0 <= i < 4 ==> IsDigit(s[i])
    ensures DigitsValue(s, 0, 4) == n
  {
    var a, b, c, e := n / 10 / 10 / 10, n / 10 / 10 % 10, n / 10 % 10, n % 10;
    FourDigits(n);
    var s := [DigitChar(a), DigitChar(b), DigitChar(c), DigitChar(e)];
    assert DigitsValue(s, 0, 1) == a;
    assert DigitsValue(s, 0, 2) == a * 10 + b;
    assert DigitsValue(s, 0, 3) == (a * 10 + b) * 10 + c;
    s
  }

  /** The four decimal digits of n, peeled off one division by ten at a time. */
  lemma {:induction false} FourDigits(n: nat)
    requires n < 10000
    ensures n / 10 / 10 / 10 <= 9
    ensures n == ((n / 10 / 10 / 10 * 10 + n / 10 / 10 % 10) * 10 + n / 10 % 10) * 10 + n % 10
  {
    var n1 := n / 10;
    var n2 := n1 / 10;
    assert n == n1 * 10 + n % 10;
    assert n1 == n2 * 10 + n1 % 10;
    assert n2 == n2 / 10 * 10 + n2 % 10;
  }

  /** `date.isoformat()`: `"%04d-%02d-%02d" % (year, month, day)`. */
  function IsoFormat(d: Date): (s: string)
    requires ValidDate(d)
    ensures |s| == 10 && s[4] == '-' && s[7] == '-'
    ensures forall i :: 0 <= i < 10 && i != 4 && i != 7 ==> IsDigit(s[i])
    ensures DigitsValue(s, 0, 4) == d.year
    ensures DigitsValue(s, 5, 7) == d.month
    ensures DigitsValue(s, 8, 10) == d.day
  {
    var s := Pad4(d.year) + "-" + Pad2(d.month) + "-" + Pad2(d.day);
    assert s[0..4] == Pad4(d.year)[0..4];
    DigitsValueSame(s, 0, Pad4(d.year), 0, 4);
    s
  }

  /**
   * The birthday of year dob.year + n, as a (year, month, day) triple, is on or before
   * `today`; for a 29 February birth the triple need not be a real date, and the
   * comparison is still the lexicographic one.
   */
  predicate Reached(dob: Date, n: int, today: Date)
  {
    !Before(today, Date(dob.year + n, dob.month, dob.day))
  }

  /** `age_in_years`: the number of birthdays reached, i.e. age in completed years. */
  function AgeInYears(dob: Date, today: Date): (age: int)
    ensures Reached(dob, age, today) && !Reached(dob, age + 1, today)
  {
    var years := today.year - dob.year;
    if today.month < dob.month || (today.month == dob.month && today.day < dob.day)
    then years - 1 else years
  }

  /** The age is the only count of years whose birthday is reached while the next one is not. */
  lemma {:induction false} AgeIsUnique(dob: Date, today: Date, n: int)
    requires Reached(dob, n, today) && !Reached(dob, n + 1, today)
    ensures n == AgeInYears(dob, today)
  {
  }

  /** The age is negative exactly for a birth date after `today`. */
  lemma {:induction false} AgeNegativeIffFuture(dob: Date, today: Date)
    ensures AgeInYears(dob, today) < 0 <==> Before(today, dob)
  {
  }

  /** The worked example of `age_in_years`, and a birthday that falls on `today` itself. */
  lemma AgeExamples()
    ensures AgeInYears(Date(2000, 12, 31), Date(2025, 1, 1)) == 24
    ensures AgeInYears(Date(2000, 1, 1), Date(2025, 1, 1)) == 25
  {
  }
}
