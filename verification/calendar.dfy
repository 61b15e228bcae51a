/** The proleptic Gregorian calendar behind Python's `datetime.date` and
    `timedelta`: valid (year, month, day) triples, a bijection with day
    ordinals (0001-01-01 is day 1, as `date.toordinal` numbers them), and day
    arithmetic and weekday defined through that ordinal. Comparison is
    lexicographic, as in Python, and `BeforeIffOrdinalLess` shows that it
    agrees with ordinal order. */
module Calendar {

  /** `datetime.MINYEAR` and `datetime.MAXYEAR`. */
  const MinYear: int := 1
  const MaxYear: int := 9999

  /** Days in the 400-year Gregorian cycle. */
  const DaysPer400Years: int := 146097

  /** Ordinal of 9999-12-31, the last date Python can represent. */
  const MaxOrdinal: int := 3652059

  datatype Date = Date(year: int, month: int, day: int) {
    /** A date Python's `date(year, month, day)` constructor accepts. */
    predicate Valid() {
      && MinYear <= year <= MaxYear
      && 1 <= month <= 12
      && 1 <= day <= DaysInMonth(year, month)
    }
  }

  predicate IsLeapYear(y: int) {
    y % 4 == 0 && (y % 100 != 0 || y % 400 == 0)
  }

  function DaysInYear(y: int): int {
    if IsLeapYear(y) then 366 else 365
  }

  function DaysInMonth(y: int, m: int): (r: int)
    requires 1 <= m <= 12
    ensures 28 <= r <= 31
  {
    if m == 2 then (if IsLeapYear(y) then 29 else 28)
    else if m == 4 || m == 6 || m == 9 || m == 11 then 30
    else 31
  }

  /** Days in the years before year `y`: the lengths of years 1 .. y - 1
      added up. */
  function DaysBeforeYear(y: int): (r: int)
    requires y >= 1
    ensures r >= 0
    decreases y
  {
    if y == 1 then 0 else DaysBeforeYear(y - 1) + DaysInYear(y - 1)
  }

  /** The closed form Python's `_days_before_year` computes: 365 days a year
      plus one leap day per fourth year, except centuries not divisible by
      400. */
  function LeapDaysFormula(y: int): int
    requires y >= 1
  {
    var k := y - 1;
    k * 365 + k / 4 - k / 100 + k / 400
  }

  /** Cumulative month lengths of a common year, indexed by month 1..13. */
  const CommonDaysBeforeMonth: seq<int> :=
    [0, 0, 31, 59, 90, 120, 151, 181, 212, 243, 273, 304, 334, 365]

  /** Days in the months of year `y` before month `m`; month 13 stands for
      the end of the year. */
  function DaysBeforeMonth(y: int, m: int): (r: int)
    requires 1 <= m <= 13
  {
    CommonDaysBeforeMonth[m] + (if m > 2 && IsLeapYear(y) then 1 else 0)
  }

  /** Day ordinal of a valid date, as `date.toordinal()` computes it. */
  function ToOrdinal(d: Date): (r: int)
    requires d.Valid()
    ensures 1 <= r <= MaxOrdinal
  {
    OrdinalWithinYear(d);
    DaysBeforeYearOrder(d.year + 1, MaxYear + 1);
    RangeEnd();
    DaysBeforeYear(d.year) + DaysBeforeMonth(d.year, d.month) + d.day
  }

  // ---------------------------------------------------------------------
  // The building blocks of the ordinal agree with the month and year lengths
  // ---------------------------------------------------------------------

  /** Each year adds exactly its own length to the running day count. */
  lemma YearStep(y: int)
    requires y >= 1
    ensures DaysBeforeYear(y + 1) == DaysBeforeYear(y) + DaysInYear(y)
  {
  }

  lemma FloorStep4(k: int)
    requires k >= 0
    ensures (k + 1) / 4 == k / 4 + (if (k + 1) % 4 == 0 then 1 else 0)
  {
  }

  lemma FloorStep100(k: int)
    requires k >= 0
    ensures (k + 1) / 100 == k / 100 + (if (k + 1) % 100 == 0 then 1 else 0)
  {
  }

  lemma FloorStep400(k: int)
    requires k >= 0
    ensures (k + 1) / 400 == k / 400 + (if (k + 1) % 400 == 0 then 1 else 0)
  {
  }

  /** The closed form grows by the length of each year, leap rule included. */
  lemma LeapDaysFormulaStep(y: int)
    requires y >= 1
    ensures LeapDaysFormula(y + 1) == LeapDaysFormula(y) + DaysInYear(y)
  {
    var k := y - 1;
    FloorStep4(k);
    FloorStep100(k);
    FloorStep400(k);
    var four := if y % 4 == 0 then 1 else 0;
    var hundred := if y % 100 == 0 then 1 else 0;
    var fourHundred := if y % 400 == 0 then 1 else 0;
    assert LeapDaysFormula(y + 1) == LeapDaysFormula(y) + 365 + four - hundred + fourHundred;
    LeapRuleCounts(y);
  }

  /** The leap rule as a sum of the three divisibility tests. */
  lemma LeapRuleCounts(y: int)
    ensures DaysInYear(y)
         == 365 + (if y % 4 == 0 then 1 else 0) - (if y % 100 == 0 then 1 else 0)
                + (if y % 400 == 0 then 1 else 0)
  {
    if y % 400 == 0 {
      var t := y / 400;
      assert y == 100 * (4 * t) && y == 4 * (100 * t);
    } else if y % 100 == 0 {
      var t := y / 100;
      assert y == 4 * (25 * t);
    }
  }

  /** The running sum of year lengths equals the closed form. */
  lemma {:induction false} DaysBeforeYearClosedForm(y: int)
    requires y >= 1
    ensures DaysBeforeYear(y) == LeapDaysFormula(y)
    decreases y
  {
    if y > 1 {
      DaysBeforeYearClosedForm(y - 1);
      LeapDaysFormulaStep(y - 1);
    }
  }

  /** Python's date range ends with day 3652059. */
  lemma RangeEnd()
    ensures DaysBeforeYear(MaxYear + 1) == MaxOrdinal
  {
    DaysBeforeYearClosedForm(MaxYear + 1);
  }

  /** The last representable date, 9999-12-31, has the last ordinal. */
  lemma LastDayOrdinal()
    ensures Date(MaxYear, 12, 31).Valid() && ToOrdinal(Date(MaxYear, 12, 31)) == MaxOrdinal
  {
    RangeEnd();
    YearStep(MaxYear);
  }

  /** The year count is strictly increasing, by at least 365 days a year. */
  lemma {:induction false} DaysBeforeYearGrowth(a: int, b: int)
    requires 1 <= a <= b
    ensures DaysBeforeYear(b) - DaysBeforeYear(a) >= 365 * (b - a)
    decreases b - a
  {
    if a < b {
      DaysBeforeYearGrowth(a, b - 1);
      YearStep(b - 1);
    }
  }

  lemma DaysBeforeYearOrder(a: int, b: int)
    requires a >= 1 && b >= 1
    ensures a <= b <==> DaysBeforeYear(a) <= DaysBeforeYear(b)
  {
    if a <= b {
      DaysBeforeYearGrowth(a, b);
    } else {
      DaysBeforeYearGrowth(b, a);
    }
  }

  /** One 400-year cycle holds 146097 days, so year 400q + 1 starts on day
      146097q + 1. */
  lemma FourCenturies(q: int)
    requires q >= 0
    ensures DaysBeforeYear(400 * q + 1) == DaysPer400Years * q
  {
    DaysBeforeYearClosedForm(400 * q + 1);
    var k := 400 * q;
    assert k / 4 == 100 * q;
    assert k / 100 == 4 * q;
    assert k / 400 == q;
  }

  /** Each month adds exactly its own length to the running day count. */
  lemma MonthStep(y: int, m: int)
    requires 1 <= m <= 12
    ensures DaysBeforeMonth(y, m + 1) == DaysBeforeMonth(y, m) + DaysInMonth(y, m)
  {
  }

  /** The whole table sums to the length of the year. */
  lemma MonthsFillYear(y: int)
    ensures DaysBeforeMonth(y, 13) == DaysInYear(y)
  {
  }

  lemma {:induction false} DaysBeforeMonthGrowth(y: int, i: int, j: int)
    requires 1 <= i <= j <= 13
    ensures DaysBeforeMonth(y, j) - DaysBeforeMonth(y, i) >= 28 * (j - i)
    decreases j - i
  {
    if i < j {
      DaysBeforeMonthGrowth(y, i, j - 1);
      MonthStep(y, j - 1);
    }
  }

  /** A date's ordinal lies inside its own month and its own year. */
  lemma OrdinalWithinYear(d: Date)
    requires d.Valid()
    ensures DaysBeforeYear(d.year) + DaysBeforeMonth(d.year, d.month) < DaysBeforeYear(d.year) + DaysBeforeMonth(d.year, d.month) + d.day
              <= DaysBeforeYear(d.year) + DaysBeforeMonth(d.year, d.month + 1)
    ensures DaysBeforeYear(d.year) + DaysBeforeMonth(d.year, d.month) + d.day <= DaysBeforeYear(d.year + 1)
  {
    MonthStep(d.year, d.month);
    DaysBeforeMonthGrowth(d.year, d.month + 1, 13);
    MonthsFillYear(d.year);
    YearStep(d.year);
  }

  // ---------------------------------------------------------------------
  // From an ordinal back to a date
  // ---------------------------------------------------------------------

  /** The year holding day `n`, searched upward from year `y`. */
  function YearOf(n: int, y: int): (r: int)
    requires y >= 1 && DaysBeforeYear(y) < n
    ensures r >= y
    ensures DaysBeforeYear(r) < n <= DaysBeforeYear(r + 1)
    decreases n - DaysBeforeYear(y)
  {
    YearStep(y);
    if n <= DaysBeforeYear(y + 1) then y else YearOf(n, y + 1)
  }

  /** The month of year `y` holding its `dayOfYear`-th day, searched upward
      from month `m`. */
  function MonthOf(y: int, dayOfYear: int, m: int): (r: int)
    requires 1 <= m <= 12
    requires DaysBeforeMonth(y, m) < dayOfYear <= DaysInYear(y)
    ensures m <= r <= 12
    ensures DaysBeforeMonth(y, r) < dayOfYear <= DaysBeforeMonth(y, r + 1)
    decreases 12 - m
  {
    if dayOfYear <= DaysBeforeMonth(y, m + 1) then m else MonthOf(y, dayOfYear, m + 1)
  }

  /** The date `date.fromordinal(n)` returns. The search skips whole 400-year
      cycles, then walks years and months; only the result is meant to agree
      with Python's, not the steps. */
  function FromOrdinal(n: int): (r: Date)
    requires 1 <= n <= MaxOrdinal
    ensures r.Valid()
    ensures ToOrdinal(r) == n
  {
    var q := (n - 1) / DaysPer400Years;
    FourCenturies(q);
    var y := YearOf(n, 400 * q + 1);
    DaysBeforeYearOrder(y, MaxYear + 1);
    RangeEnd();
    YearStep(y);
    var dayOfYear := n - DaysBeforeYear(y);
    var m := MonthOf(y, dayOfYear, 1);
    MonthStep(y, m);
    Date(y, m, dayOfYear - DaysBeforeMonth(y, m))
  }

  // ---------------------------------------------------------------------
  // Comparison
  // ---------------------------------------------------------------------

  /** Python's `a < b` on dates: lexicographic on (year, month, day). */
  predicate Before(a: Date, b: Date) {
    || a.year < b.year
    || (a.year == b.year && a.month < b.month)
    || (a.year == b.year && a.month == b.month && a.day < b.day)
  }

  /** Lexicographic order and ordinal order agree. */
  lemma BeforeIffOrdinalLess(a: Date, b: Date)
    requires a.Valid() && b.Valid()
    ensures Before(a, b) <==> ToOrdinal(a) < ToOrdinal(b)
  {
    OrdinalWithinYear(a);
    OrdinalWithinYear(b);
    if a.year < b.year {
      DaysBeforeYearOrder(a.year + 1, b.year);
    } else if b.year < a.year {
      DaysBeforeYearOrder(b.year + 1, a.year);
    } else if a.month < b.month {
      DaysBeforeMonthGrowth(a.year, a.month + 1, b.month);
    } else if b.month < a.month {
      DaysBeforeMonthGrowth(a.year, b.month + 1, a.month);
    }
  }

  /** Python's date order is a strict total order: of two valid dates, one
      comes first unless they are equal, and never both. */
  lemma BeforeTrichotomy(a: Date, b: Date)
    requires a.Valid() && b.Valid()
    ensures Before(a, b) || a == b || Before(b, a)
    ensures !(Before(a, b) && Before(b, a)) && !Before(a, a)
  {
  }

  /** Two dates are equal exactly when their ordinals are. */
  lemma OrdinalInjective(a: Date, b: Date)
    requires a.Valid() && b.Valid()
    ensures a == b <==> ToOrdinal(a) == ToOrdinal(b)
  {
    BeforeIffOrdinalLess(a, b);
    BeforeIffOrdinalLess(b, a);
  }

  /** `FromOrdinal` undoes `ToOrdinal`; with the postcondition of
      `FromOrdinal` this makes the two a bijection between valid dates and
      1..MaxOrdinal. */
  lemma FromToOrdinal(d: Date)
    requires d.Valid()
    ensures FromOrdinal(ToOrdinal(d)) == d
  {
    OrdinalInjective(FromOrdinal(ToOrdinal(d)), d);
  }

  // ---------------------------------------------------------------------
  // Day arithmetic: date + timedelta(days=n), date - timedelta(days=n),
  // (a - b).days
  // ---------------------------------------------------------------------

  /** Whether `d + timedelta(days=n)` stays within Python's date range
      (outside it Python raises OverflowError). */
  predicate AddInRange(d: Date, n: int)
    requires d.Valid()
  {
    1 <= ToOrdinal(d) + n <= MaxOrdinal
  }

  /** Whether `d - timedelta(days=n)` stays within Python's date range. */
  predicate SubtractInRange(d: Date, n: int)
    requires d.Valid()
  {
    AddInRange(d, -n)
  }

  /** `d + timedelta(days=n)`. */
  function AddDays(d: Date, n: int): (r: Date)
    requires d.Valid() && AddInRange(d, n)
    ensures r.Valid()
    ensures ToOrdinal(r) == ToOrdinal(d) + n
  {
    FromOrdinal(ToOrdinal(d) + n)
  }

  /** `d - timedelta(days=n)`, which Python evaluates as `d + timedelta(days=-n)`. */
  function SubtractDays(d: Date, n: int): (r: Date)
    requires d.Valid() && SubtractInRange(d, n)
    ensures r.Valid()
    ensures ToOrdinal(r) == ToOrdinal(d) - n
  {
    AddDays(d, -n)
  }

  /** `(a - b).days`: the number of days to add to `b` to reach `a`. */
  function DaysBetween(a: Date, b: Date): (r: int)
    requires a.Valid() && b.Valid()
    ensures AddInRange(b, r) && AddDays(b, r) == a
    ensures r < 0 <==> Before(a, b)
    ensures r == 0 <==> a == b
  {
    FromToOrdinal(a);
    BeforeIffOrdinalLess(a, b);
    OrdinalInjective(a, b);
    ToOrdinal(a) - ToOrdinal(b)
  }

  /** `date.weekday()`: Monday is 0 and Sunday is 6. */
  function Weekday(d: Date): (r: int)
    requires d.Valid()
    ensures 0 <= r < 7
  {
    (ToOrdinal(d) + 6) % 7
  }

  // ---------------------------------------------------------------------
  // The next calendar day, an independent reference for day arithmetic
  // ---------------------------------------------------------------------

  /** The day after `d`, by rolling the day, then the month, then the year. */
  function NextDay(d: Date): (r: Date)
    requires d.Valid() && d != Date(MaxYear, 12, 31)
    ensures r.Valid()
    ensures Before(d, r)
  {
    if d.day < DaysInMonth(d.year, d.month) then Date(d.year, d.month, d.day + 1)
    else if d.month < 12 then Date(d.year, d.month + 1, 1)
    else Date(d.year + 1, 1, 1)
  }

  /** The successor on triples is the successor on ordinals. */
  lemma NextDayOrdinal(d: Date)
    requires d.Valid() && d != Date(MaxYear, 12, 31)
    ensures ToOrdinal(NextDay(d)) == ToOrdinal(d) + 1
  {
    MonthStep(d.year, d.month);
    if d.day == DaysInMonth(d.year, d.month) && d.month == 12 {
      MonthsFillYear(d.year);
      YearStep(d.year);
    }
  }

  // ---------------------------------------------------------------------
  // Laws of day arithmetic
  // ---------------------------------------------------------------------

  /** Adding no days changes nothing. */
  lemma AddZero(d: Date)
    requires d.Valid()
    ensures AddDays(d, 0) == d
  {
    FromToOrdinal(d);
  }

  /** Adding one day is taking the next calendar day. */
  lemma AddOneIsNextDay(d: Date)
    requires d.Valid() && d != Date(MaxYear, 12, 31)
    ensures AddInRange(d, 1) && AddDays(d, 1) == NextDay(d)
  {
    NextDayOrdinal(d);
    OrdinalInjective(AddDays(d, 1), NextDay(d));
  }

  /** Adding `a` then `b` days is adding `a + b` days. */
  lemma AddCompose(d: Date, a: int, b: int)
    requires d.Valid() && AddInRange(d, a) && AddInRange(AddDays(d, a), b)
    ensures AddInRange(d, a + b)
    ensures AddDays(AddDays(d, a), b) == AddDays(d, a + b)
  {
    OrdinalInjective(AddDays(AddDays(d, a), b), AddDays(d, a + b));
  }

  /** Adding n + 1 days steps one calendar day past adding n days. */
  lemma AddSuccessor(d: Date, n: int)
    requires d.Valid() && AddInRange(d, n + 1) && AddInRange(d, n)
    ensures AddDays(d, n) != Date(MaxYear, 12, 31)
    ensures AddDays(d, n + 1) == NextDay(AddDays(d, n))
  {
    var e := AddDays(d, n);
    LastDayOrdinal();
    OrdinalInjective(e, Date(MaxYear, 12, 31));
    AddOneIsNextDay(e);
    AddCompose(d, n, 1);
  }

  /** Subtracting n days undoes adding them, and the other way round. */
  lemma AddSubtractInverse(d: Date, n: int)
    requires d.Valid() && AddInRange(d, n)
    ensures SubtractInRange(AddDays(d, n), n)
    ensures SubtractDays(AddDays(d, n), n) == d
  {
    var e := AddDays(d, n);
    assert ToOrdinal(e) - n == ToOrdinal(d);
    assert SubtractDays(e, n) == FromOrdinal(ToOrdinal(d));
    FromToOrdinal(d);
  }

  lemma SubtractAddInverse(d: Date, n: int)
    requires d.Valid() && SubtractInRange(d, n)
    ensures AddInRange(SubtractDays(d, n), n)
    ensures AddDays(SubtractDays(d, n), n) == d
  {
    var e := SubtractDays(d, n);
    assert ToOrdinal(e) + n == ToOrdinal(d);
    assert AddDays(e, n) == FromOrdinal(ToOrdinal(d));
    FromToOrdinal(d);
  }

  /** Adding a non-negative count never moves a date backwards, and a
      positive count always moves it forwards. */
  lemma AddMonotone(d: Date, n: int)
    requires d.Valid() && AddInRange(d, n)
    ensures n >= 0 <==> !Before(AddDays(d, n), d)
    ensures n > 0 <==> Before(d, AddDays(d, n))
  {
    BeforeIffOrdinalLess(AddDays(d, n), d);
    BeforeIffOrdinalLess(d, AddDays(d, n));
  }

  /** The day count between `d` and `d + n` is `n`. */
  lemma DaysBetweenAdd(d: Date, n: int)
    requires d.Valid() && AddInRange(d, n)
    ensures DaysBetween(AddDays(d, n), d) == n
  {
  }

  // ---------------------------------------------------------------------
  // Weekdays
  // ---------------------------------------------------------------------

  /** 0001-01-01 was a Monday in the proleptic Gregorian calendar. */
  lemma FirstDayIsMonday()
    ensures Date(MinYear, 1, 1).Valid() && Weekday(Date(MinYear, 1, 1)) == 0
  {
  }

  /** The weekday advances by one, cyclically, from each day to the next. */
  lemma WeekdayOfNextDay(d: Date)
    requires d.Valid() && d != Date(MaxYear, 12, 31)
    ensures Weekday(NextDay(d)) == (Weekday(d) + 1) % 7
  {
    var o, p := ToOrdinal(d), ToOrdinal(NextDay(d));
    NextDayOrdinal(d);
    assert p + 6 == (o + 6) + 1;
    ShiftMod7(o + 6, 1);
  }

  /** Moving by whole weeks keeps the weekday. */
  lemma WeekdayPeriodic(d: Date, weeks: int)
    requires d.Valid() && AddInRange(d, 7 * weeks)
    ensures Weekday(AddDays(d, 7 * weeks)) == Weekday(d)
  {
    var o := ToOrdinal(d) + 6;
    assert ToOrdinal(AddDays(d, 7 * weeks)) + 6 == o + 7 * weeks;
    WholeWeeks(o, weeks);
  }

  lemma WholeWeeks(o: int, weeks: int)
    ensures (o + 7 * weeks) % 7 == o % 7
  {
  }

  lemma ShiftMod7(o: int, k: int)
    ensures (o + k) % 7 == (o % 7 + k) % 7
  {
  }
}
