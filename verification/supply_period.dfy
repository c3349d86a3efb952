/** The custom billing cycle: a supply period runs from the 26th of one month
    through the 25th of the next, and is labelled by the month of its end. */
module SupplyPeriod {
  import opened Calendar

  /** The `'%b-%y'` text of a period end, kept as its two parts: the month and
      the last two digits of the year. */
  datatype Label = Label(month: int, yy: int)

  predicate ValidLabel(l: Label) {
    1 <= l.month <= 12 && 0 <= l.yy < 100
  }

  /** `strftime('%b-%y')`: the month and the year modulo 100. */
  function FormatLabel(d: Date): (l: Label)
    requires ValidDate(d)
    ensures ValidLabel(l) && l.month == d.month && (d.year - l.yy) % 100 == 0
  {
    Label(d.month, d.year % 100)
  }

  /** The century window of `strptime`'s `%y`: 69..99 read as 1969..1999, 00..68 as 2000..2068. */
  function ParseYear(yy: int): (y: int)
    ensures 0 <= yy < 100 ==> 1969 <= y <= 2068 && (y - yy) % 100 == 0
  {
    if yy <= 68 then 2000 + yy else 1900 + yy
  }

  /** `pd.to_datetime(label, format='%b-%y')`: the first day of the labelled month. */
  function ParseLabel(l: Label): (d: Date)
    requires ValidLabel(l)
    ensures ValidDate(d) && d.day == 1 && d.month == l.month && 1969 <= d.year <= 2068
  {
    Date(ParseYear(l.yy), l.month, 1)
  }

  /** The key the summary rows are sorted by: the month index of the parsed label. */
  function LabelKey(l: Label): int {
    Index(YearMonth(ParseYear(l.yy), l.month))
  }

  /** Distinct labels have distinct sort keys, so the summary order is strict. */
  lemma LabelKeyInjective(a: Label, b: Label)
    requires ValidLabel(a) && ValidLabel(b) && LabelKey(a) == LabelKey(b)
    ensures a == b
  {
    IndexInjective(YearMonth(ParseYear(a.yy), a.month), YearMonth(ParseYear(b.yy), b.month));
  }

  /** Inside the century window, parsing a formatted label gives back the month. */
  lemma LabelRoundTrip(d: Date)
    requires ValidDate(d) && 1969 <= d.year <= 2068
    ensures ParseLabel(FormatLabel(d)) == Date(d.year, d.month, 1)
  {
    if d.year >= 2000 {
      assert d.year % 100 == d.year - 2000;
    } else {
      assert d.year % 100 == d.year - 1900;
    }
  }

  /** Inside the century window, sorting by label is sorting by the month of the period end. */
  lemma LabelOrderIsChronological(a: Date, b: Date)
    requires ValidDate(a) && ValidDate(b)
    requires 1969 <= a.year <= 2068 && 1969 <= b.year <= 2068
    ensures LabelKey(FormatLabel(a)) < LabelKey(FormatLabel(b)) <==> Index(MonthOf(a)) < Index(MonthOf(b))
  {
    LabelRoundTrip(a);
    LabelRoundTrip(b);
  }

  /** Outside the window the two-digit label loses the century: months a
      hundred years apart share one label, and January 2069 sorts before
      December 2068. */
  lemma LabelWindowLimits()
    ensures FormatLabel(Date(1968, 12, 25)) == FormatLabel(Date(2068, 12, 25))
    ensures LabelKey(FormatLabel(Date(2069, 1, 25))) < LabelKey(FormatLabel(Date(2068, 12, 25)))
  {
  }

  /** What `get_supply_period` returns: the label and the end timestamp. */
  datatype Period = Period(name: Label, end: DateTime)

  /** The first and last day of the period holding `d`, computed as
      `get_supply_period` does in each of its two branches. */
  function PeriodBounds(d: Date): (b: (Date, Date))
    requires ValidDate(d)
    ensures ValidDate(b.0) && ValidDate(b.1)
    ensures b.0.day == 26 && b.1.day == 25
    ensures Index(MonthOf(b.1)) == Index(MonthOf(b.0)) + 1
    ensures DateLe(b.0, d) && DateLe(d, b.1)
  {
    if d.day >= 26 then
      var start := ReplaceDay(d, 26);
      (start, ReplaceDay(AddMonth(start), 25))
    else
      var end := ReplaceDay(d, 25);
      (ReplaceDay(SubMonth(end), 26), end)
  }

  function PeriodStart(d: Date): Date
    requires ValidDate(d)
  {
    PeriodBounds(d).0
  }

  function PeriodEnd(d: Date): Date
    requires ValidDate(d)
  {
    PeriodBounds(d).1
  }

  /** `get_supply_period`: `replace(day=...)` keeps the time of day, so the end
      timestamp is the period's last day at the input's time. */
  function GetSupplyPeriod(t: DateTime): (p: Period)
    requires ValidDateTime(t)
    ensures ValidDateTime(p.end) && DateTimeLe(t, p.end)
    ensures p.end.date == PeriodEnd(t.date)
    ensures p.end.date.day == 25 && p.end.time == t.time
    ensures p.name == FormatLabel(p.end.date)
  {
    var end := PeriodEnd(t.date);
    Period(FormatLabel(end), DateTime(end, t.time))
  }

  /** The period ends in the date's own month up to day 25, and in the next month from day 26. */
  lemma PeriodEndMonth(d: Date)
    requires ValidDate(d)
    ensures PeriodEnd(d).day == 25
    ensures Index(MonthOf(PeriodEnd(d))) == Index(MonthOf(d)) + (if d.day >= 26 then 1 else 0)
  {
  }

  /** Up to day 25 the period ends on the 25th of the same month; from day 26
      on the 25th of the next month, December rolling over into January. */
  lemma PeriodEndExplicit(d: Date)
    requires ValidDate(d)
    ensures PeriodEnd(d) ==
              if d.day <= 25 then Date(d.year, d.month, 25)
              else if d.month == 12 then Date(d.year + 1, 1, 25)
              else Date(d.year, d.month + 1, 25)
  {
  }

  /** The period end is the first 25th on or after the date. */
  lemma PeriodEndIsFirst25th(d: Date, x: Date)
    requires ValidDate(d) && ValidDate(x) && x.day == 25 && DateLe(d, x)
    ensures DateLe(PeriodEnd(d), x)
  {
    PeriodEndMonth(d);
    DateLeByIndex(d, x);
    DateLeByIndex(PeriodEnd(d), x);
  }

  /** Two dates share a period exactly when the second lies between the
      first's period start and period end, both included. */
  lemma SamePeriodIff(d: Date, x: Date)
    requires ValidDate(d) && ValidDate(x)
    ensures PeriodEnd(x) == PeriodEnd(d) <==> DateLe(PeriodStart(d), x) && DateLe(x, PeriodEnd(d))
  {
    PeriodEndMonth(d);
    PeriodEndMonth(x);
    DateLeByIndex(PeriodStart(d), x);
    DateLeByIndex(x, PeriodEnd(d));
    if Index(MonthOf(PeriodEnd(x))) == Index(MonthOf(PeriodEnd(d))) {
      IndexInjective(MonthOf(PeriodEnd(x)), MonthOf(PeriodEnd(d)));
    }
  }

  /** The boundary falls between day 25 and day 26 of every month, December included. */
  lemma SplitBetween25And26(y: int, m: int)
    requires 1 <= m <= 12
    ensures PeriodEnd(Date(y, m, 25)) == Date(y, m, 25)
    ensures PeriodEnd(Date(y, m, 26)).day == 25
    ensures Index(MonthOf(PeriodEnd(Date(y, m, 26)))) == Index(MonthOf(Date(y, m, 25))) + 1
    ensures m == 12 ==> PeriodEnd(Date(y, m, 26)) == Date(y + 1, 1, 25)
  {
  }

  /** Concrete boundary cases, including the year rollover. */
  lemma BoundaryExamples()
    ensures GetSupplyPeriod(DateTime(Date(2024, 1, 25), 0)).name == Label(1, 24)
    ensures GetSupplyPeriod(DateTime(Date(2024, 1, 26), 0)).name == Label(2, 24)
    ensures GetSupplyPeriod(DateTime(Date(2024, 12, 26), 0)).end.date == Date(2025, 1, 25)
    ensures GetSupplyPeriod(DateTime(Date(2024, 12, 26), 0)).name == Label(1, 25)
  {
  }
}
