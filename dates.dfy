/** Calendar dates and their `YYYY-MM-DD` text form, as the program reads them
    with `datetime.strptime(s, "%Y-%m-%d")` and writes them with
    `strftime("%Y-%m-%d")`. */
module Dates {
  import opened Wrappers
  import opened Text

  datatype Date = Date(year: int, month: int, day: int)

  /** Gregorian leap years. */
  predicate IsLeapYear(y: int) {
    y % 4 == 0 && (y % 100 != 0 || y % 400 == 0)
  }

  function DaysInMonth(y: int, m: int): (n: int)
    requires 1 <= m <= 12
    ensures 28 <= n <= 31
    ensures n == 29 <==> m == 2 && IsLeapYear(y)
  {
    if m == 2 then (if IsLeapYear(y) then 29 else 28)
    else if m == 4 || m == 6 || m == 9 || m == 11 then 30
    else 31
  }

  /** The dates a datetime can hold: years 1 to 9999, months 1 to 12, and a day
      that exists in that month. */
  predicate IsValid(d: Date) {
    1 <= d.year <= 9999 && 1 <= d.month <= 12 && 1 <= d.day <= DaysInMonth(d.year, d.month)
  }

  /** Chronological order, as two datetimes at midnight compare. */
  predicate DateLe(a: Date, b: Date) {
    a.year < b.year || (a.year == b.year && (a.month < b.month || (a.month == b.month && a.day <= b.day)))
  }

  /** The canonical text: four-digit year, two-digit month, two-digit day. */
  function Format(d: Date): (s: string)
    requires IsValid(d)
    ensures |s| == 10 && s[4] == '-' && s[7] == '-'
  {
    PadDigits(d.year, 4) + "-" + PadDigits(d.month, 2) + "-" + PadDigits(d.day, 2)
  }

  /** The month field that `%m` matches: `1[0-2]|0[1-9]|[1-9]`. */
  function MonthField(f: string): (r: Option<int>)
    ensures r.Some? ==> 1 <= r.value <= 12
  {
    if |f| == 2 && AllDigits(f) && 1 <= DigitsToNat(f) <= 12 then Some(DigitsToNat(f))
    else if |f| == 1 && IsDigit(f[0]) && f[0] != '0' then Some(DigitValue(f[0]))
    else None
  }

  /** The day field that `%d` matches in full: `3[01]|[12]\d|0[1-9]|[1-9]| [1-9]`. */
  function DayField(f: string): (r: Option<int>)
    ensures r.Some? ==> 1 <= r.value <= 31
  {
    if |f| == 2 && AllDigits(f) && 1 <= DigitsToNat(f) <= 31 then Some(DigitsToNat(f))
    else if |f| == 1 && IsDigit(f[0]) && f[0] != '0' then Some(DigitValue(f[0]))
    else if |f| == 2 && f[0] == ' ' && IsDigit(f[1]) && f[1] != '0' then Some(DigitValue(f[1]))
    else None
  }

  /** `strptime(s, "%Y-%m-%d")`: exactly four digits of year, a dash, the month
      field, a dash, the day field and nothing after it, then the calendar check
      that datetime makes. None stands for the ValueError it raises. */
  function Parse(s: string): (r: Option<Date>)
    ensures r.Some? ==> IsValid(r.value)
  {
    if |s| < 5 || !AllDigits(s[..4]) || s[4] != '-' then None
    else
      var rest := s[5..];
      var k := IndexOf(rest, '-');
      if k == |rest| then None
      else
        match (MonthField(rest[..k]), DayField(rest[k + 1..]))
        case (Some(m), Some(dd)) =>
          var d := Date(DigitsToNat(s[..4]), m, dd);
          if IsValid(d) then Some(d) else None
        case _ => None
  }

  /** `strptime` followed by `strftime`: the normalisation an accepted date goes through. */
  function Normalize(s: string): (r: Option<string>)
    ensures r.Some? <==> Parse(s).Some?
    ensures r.Some? ==> |r.value| == 10
  {
    match Parse(s)
    case Some(d) => Some(Format(d))
    case None => None
  }

  /** A string the program stores: the formatting of the date it parses to. */
  predicate IsCanonical(s: string) {
    Parse(s).Some? && Format(Parse(s).value) == s
  }

  lemma MonthFieldPadded(m: int)
    requires 1 <= m <= 12
    ensures MonthField(PadDigits(m, 2)) == Some(m)
  {
    assert Pow10(2) == 100;
    PadDigitsRoundTrip(m, 2);
  }

  lemma DayFieldPadded(d: int)
    requires 1 <= d <= 31
    ensures DayField(PadDigits(d, 2)) == Some(d)
  {
    assert Pow10(2) == 100;
    PadDigitsRoundTrip(d, 2);
  }

  /** Formatting a valid date and parsing it back gives the same date. */
  lemma ParseFormat(d: Date)
    requires IsValid(d)
    ensures Parse(Format(d)) == Some(d)
  {
    var y, m, dd := PadDigits(d.year, 4), PadDigits(d.month, 2), PadDigits(d.day, 2);
    var s := Format(d);
    var rest := m + ['-'] + dd;
    assert s == y + ['-'] + rest;
    assert s[..4] == y && s[5..] == rest;
    NonDigitNotIn(m, '-');
    IndexOfSeparator(m, '-', dd);
    assert rest[..2] == m && rest[3..] == dd;
    assert Pow10(4) == 10000;
    PadDigitsRoundTrip(d.year, 4);
    MonthFieldPadded(d.month);
    DayFieldPadded(d.day);
  }

  /** The formatted text of a valid date is canonical. */
  lemma FormatIsCanonical(d: Date)
    requires IsValid(d)
    ensures IsCanonical(Format(d))
  {
    ParseFormat(d);
  }

  /** An accepted date is normalised to a canonical string that denotes the same date. */
  lemma NormalizeIsCanonical(s: string)
    requires Normalize(s).Some?
    ensures IsCanonical(Normalize(s).value)
    ensures Parse(Normalize(s).value) == Parse(s)
  {
    ParseFormat(Parse(s).value);
  }

  /** Normalising a normalised date changes nothing. */
  lemma NormalizeIdempotent(s: string)
    requires Normalize(s).Some?
    ensures Normalize(Normalize(s).value) == Normalize(s)
  {
    ParseFormat(Parse(s).value);
  }

  /** On canonical strings lexical order is chronological order. */
  lemma FormatOrder(a: Date, b: Date)
    requires IsValid(a) && IsValid(b)
    ensures LexLe(Format(a), Format(b)) <==> DateLe(a, b)
  {
    assert Pow10(2) == 100 && Pow10(4) == 10000;
    var ya, ma, da := PadDigits(a.year, 4), PadDigits(a.month, 2), PadDigits(a.day, 2);
    var yb, mb, db := PadDigits(b.year, 4), PadDigits(b.month, 2), PadDigits(b.day, 2);
    var dash := "-";
    assert Format(a) == ya + (dash + (ma + (dash + da)));
    assert Format(b) == yb + (dash + (mb + (dash + db)));
    PadDigitsRoundTrip(a.year, 4); PadDigitsRoundTrip(b.year, 4);
    PadDigitsRoundTrip(a.month, 2); PadDigitsRoundTrip(b.month, 2);
    PadDigitsOrder(a.year, b.year, 4);
    PadDigitsOrder(a.month, b.month, 2);
    PadDigitsOrder(a.day, b.day, 2);
    LexLeConcat(ya, dash + (ma + (dash + da)), yb, dash + (mb + (dash + db)));
    LexLeConcat(dash, ma + (dash + da), dash, mb + (dash + db));
    LexLeConcat(ma, dash + da, mb, dash + db);
    LexLeConcat(dash, da, dash, db);
  }

  /** The same, stated on two stored strings. */
  lemma CanonicalOrder(s: string, t: string)
    requires IsCanonical(s) && IsCanonical(t)
    ensures LexLe(s, t) <==> DateLe(Parse(s).value, Parse(t).value)
  {
    FormatOrder(Parse(s).value, Parse(t).value);
  }
}
