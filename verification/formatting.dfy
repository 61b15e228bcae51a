/** `formatar_data` and the `strftime('%d/%m/%Y')` rendering it builds on. */
module Formatting {
  import opened Calendar
  import opened Decimal

  /** Portuguese weekday names, Monday first (the `WEEKDAYS_PT` table). */
  const WeekdaysPt: seq<string> := [
    "segunda-feira",
    "terça-feira",
    "quarta-feira",
    "quinta-feira",
    "sexta-feira",
    "sábado",
    "domingo"
  ]

  /** `d.strftime('%d/%m/%Y')`: two-digit day, two-digit month and
      four-digit year separated by slashes. Each field reads back as the
      date component it was written for. */
  function FormatDate(d: Date): (s: string)
    requires d.Valid()
    ensures |s| == 10
    ensures s[2] == '/' && s[5] == '/'
    ensures AllDigits(s[0..2]) && AllDigits(s[3..5]) && AllDigits(s[6..10])
    ensures Value(s[0..2]) == d.day
    ensures Value(s[3..5]) == d.month
    ensures Value(s[6..10]) == d.year
    ensures SingleLine(s)
  {
    var dd := ZeroPad(d.day, 2);
    var mm := ZeroPad(d.month, 2);
    var yyyy := ZeroPad(d.year, 4);
    DigitsSingleLine(dd);
    DigitsSingleLine(mm);
    DigitsSingleLine(yyyy);
    var s := dd + "/" + mm + "/" + yyyy;
    assert s[0..2] == dd && s[3..5] == mm && s[6..10] == yyyy;
    s
  }

  /** Different dates never render alike: the text determines the date. */
  lemma FormatDateInjective(a: Date, b: Date)
    requires a.Valid() && b.Valid()
    ensures FormatDate(a) == FormatDate(b) <==> a == b
  {
    if FormatDate(a) == FormatDate(b) {
      var s := FormatDate(a);
      assert Value(s[0..2]) == a.day == b.day;
      assert Value(s[3..5]) == a.month == b.month;
      assert Value(s[6..10]) == a.year == b.year;
    }
  }

  /** `formatar_data(d)`: the date as `DD/MM/YYYY`, a space, then the
      weekday name in parentheses. */
  function FormatWithWeekday(d: Date): (s: string)
    requires d.Valid()
    ensures |s| > 13
    ensures s[..10] == FormatDate(d)
    ensures s[10..12] == " ("
    ensures s[12..|s| - 1] == WeekdaysPt[Weekday(d)]
    ensures s[|s| - 1] == ')'
    ensures SingleLine(s)
  {
    var name := WeekdaysPt[Weekday(d)];
    NamesSingleLine(Weekday(d));
    var s := FormatDate(d) + " (" + name + ")";
    assert s[12..|s| - 1] == name;
    s
  }

  /** The rendering with the weekday also determines the date. */
  lemma FormatWithWeekdayInjective(a: Date, b: Date)
    requires a.Valid() && b.Valid()
    ensures FormatWithWeekday(a) == FormatWithWeekday(b) <==> a == b
  {
    if FormatWithWeekday(a) == FormatWithWeekday(b) {
      FormatDateInjective(a, b);
    }
  }

  /** The weekday names are pairwise distinct, so the name shown identifies
      the weekday. */
  lemma WeekdayNamesDistinct(i: int, j: int)
    requires 0 <= i < 7 && 0 <= j < 7
    ensures WeekdaysPt[i] == WeekdaysPt[j] <==> i == j
  {
  }

  lemma NamesSingleLine(i: int)
    requires 0 <= i < 7
    ensures SingleLine(WeekdaysPt[i])
  {
  }

  /** Consecutive days show consecutive names from the table. */
  lemma NextDayName(d: Date)
    requires d.Valid() && d != Date(MaxYear, 12, 31)
    ensures FormatWithWeekday(NextDay(d))[12..|FormatWithWeekday(NextDay(d))| - 1]
              == WeekdaysPt[(Weekday(d) + 1) % 7]
  {
    WeekdayOfNextDay(d);
  }

  /** 1 January 2025 renders as `01/01/2025 (quarta-feira)`, the example in
      the docstring of `formatar_data`. */
  lemma NewYear2025Example()
    ensures Date(2025, 1, 1).Valid()
    ensures FormatWithWeekday(Date(2025, 1, 1)) == "01/01/2025 (quarta-feira)"
  {
    var d := Date(2025, 1, 1);
    var digits, name := FormatDate(d), WeekdaysPt[Weekday(d)];
    NewYear2025Digits();
    NewYear2025IsWednesday();
    assert FormatWithWeekday(d) == digits + " (" + name + ")";
    JoinNewYear2025();
  }

  lemma JoinNewYear2025()
    ensures "01/01/2025" + " (" + "quarta-feira" + ")" == "01/01/2025 (quarta-feira)"
  {
  }

  /** 1 January 2025 was a Wednesday. */
  lemma NewYear2025IsWednesday()
    ensures Date(2025, 1, 1).Valid() && Weekday(Date(2025, 1, 1)) == 2
  {
    DaysBeforeYearClosedForm(2025);
    assert ToOrdinal(Date(2025, 1, 1)) == 739252;
  }

  lemma NewYear2025Digits()
    ensures FormatDate(Date(2025, 1, 1)) == "01/01/2025"
  {
    ZeroPadOne();
    ZeroPad2025();
    FormatDateFields(Date(2025, 1, 1));
    JoinDigits2025();
  }

  lemma FormatDateFields(d: Date)
    requires d.Valid()
    ensures FormatDate(d) == ZeroPad(d.day, 2) + "/" + ZeroPad(d.month, 2) + "/" + ZeroPad(d.year, 4)
  {
  }

  lemma ZeroPadOne()
    ensures ZeroPad(1, 2) == "01"
  {
    assert ZeroPad(0, 1) == "0";
  }

  lemma ZeroPad2025()
    ensures ZeroPad(2025, 4) == "2025"
  {
    assert ZeroPad(0, 1) == "0";
    assert ZeroPad(2, 1) == "2";
    assert ZeroPad(20, 2) == "20";
    assert ZeroPad(202, 3) == "202";
  }

  lemma JoinDigits2025()
    ensures "01" + "/" + "01" + "/" + "2025" == "01/01/2025"
  {
  }
}
