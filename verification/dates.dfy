/** The date re-layout of the work-log forms: a text in one of two layouts is
    read the way `datetime.strptime` reads it, checked against the calendar,
    and rendered as `%Y-%m-%dT%H:%M:%S.000+0000`.

    `strptime` turns each directive into a regular expression and the format's
    whitespace into `\s+`, matches from the start of the text, and then refuses
    text left over after the match:
      %Y  \d\d\d\d              %m  1[0-2]|0[1-9]|[1-9]
      %d  3[01]|[12]\d|0[1-9]|[1-9]| [1-9]
      %H  2[0-3]|[01]\d|\d      %M  [0-5]\d|\d
    In both layouts every field is followed by a character that is not a digit
    (or by the end of the pattern), so taking the first alternative that
    matches at the current position, with no backtracking, accepts the same
    texts and reads the same values as the regular-expression engine. */
module Dates {
  import opened Text

  /** A naive date and time: no time zone is attached anywhere. */
  datatype DateTime = DateTime(year: nat, month: nat, day: nat, hour: nat, minute: nat, second: nat)

  /** The two layouts: `%Y-%m-%d %H:%M` (single log and bulk upload) and
      `%H:%M %d-%m-%Y` (logging on several issues at once). */
  datatype Layout = DateFirst | TimeFirst

  /** Why `strptime` raised `ValueError`. */
  datatype DateError =
    | NoMatch                        // the text does not match the layout
    | UnconvertedData(rest: String)  // text remains after the match
    | YearOutOfRange                 // year 0
    | DayOutOfRange                  // a day the month does not have

  datatype Result<T> = Ok(value: T) | Err(error: DateError)

  // ------------------------------------------------------------ calendar

  predicate IsLeap(y: nat) {
    y % 4 == 0 && (y % 100 != 0 || y % 400 == 0)
  }

  function DaysInMonth(y: nat, m: nat): (n: nat)
    requires 1 <= m <= 12
    ensures 28 <= n <= 31
  {
    if m == 2 then (if IsLeap(y) then 29 else 28)
    else if m == 4 || m == 6 || m == 9 || m == 11 then 30
    else 31
  }

  /** A value `datetime.datetime` accepts: year 1 to 9999, a real day of the
      month, a time of day. */
  predicate Valid(d: DateTime) {
    1 <= d.year <= 9999 && 1 <= d.month <= 12 && 1 <= d.day <= DaysInMonth(d.year, d.month) &&
    d.hour < 24 && d.minute < 60 && d.second < 60
  }

  /** The ranges the field patterns can produce, before the calendar check. */
  predicate InFieldRanges(d: DateTime) {
    d.year <= 9999 && 1 <= d.month <= 12 && 1 <= d.day <= 31 && d.hour < 24 && d.minute < 60 && d.second == 0
  }

  // ------------------------------------------------------------ scanning

  /** The outcome of matching one piece of a pattern at the start of a text. */
  datatype Scan<T> = Scanned(value: T, rest: String) | NoParse {
    predicate IsFailure() { NoParse? }
    function PropagateFailure<U>(): Scan<U> requires NoParse? { NoParse }
    function Extract(): (T, String) requires Scanned? { (value, rest) }
  }

  predicate DigitIn(s: String, i: nat, lo: char, hi: char) {
    i < |s| && lo <= s[i] <= hi
  }

  /** One literal character of the layout. */
  function Lit(s: String, c: char): (r: Scan<()>)
    ensures r.Scanned? <==> (s != [] && s[0] == c)
    ensures r.Scanned? ==> r.rest == s[1..]
  {
    if s != [] && s[0] == c then Scanned((), s[1..]) else NoParse
  }

  /** `\s+`: at least one whitespace character, as many as there are. */
  function Spaces(s: String): (r: Scan<()>)
    ensures r.Scanned? <==> (s != [] && IsSpace(s[0]))
    ensures r.Scanned? ==> r.rest == TrimStart(s)
  {
    if s != [] && IsSpace(s[0]) then Scanned((), TrimStart(s)) else NoParse
  }

  /** `%Y`: exactly four digits, read as a decimal number. */
  function Year(s: String): (r: Scan<nat>)
    ensures r.Scanned? <==> |s| >= 4 && AllDigits(s[..4])
    ensures r.Scanned? ==> r.value == DigitsValue(s[..4]) && r.value <= 9999 && r.rest == s[4..]
  {
    if |s| >= 4 && AllDigits(s[..4]) then
      PaddedBound(s[..4]);
      Scanned(DigitsValue(s[..4]), s[4..])
    else NoParse
  }

  /** `%m`: `1[0-2]|0[1-9]|[1-9]`. */
  function Month(s: String): (r: Scan<nat>)
    ensures r.Scanned? <==> DigitIn(s, 0, '1', '9') || (DigitIn(s, 0, '0', '0') && DigitIn(s, 1, '1', '9'))
    ensures r.Scanned? ==> 1 <= r.value <= 12 && |r.rest| < |s| && r.rest == s[|s| - |r.rest|..]
    ensures r.Scanned? ==> var k := |s| - |r.rest|;
      (k == 1 || k == 2) && AllDigits(s[..k]) && r.value == DigitsValue(s[..k])
  {
    if DigitIn(s, 0, '1', '1') && DigitIn(s, 1, '0', '2') then TwoDigitsValue(s); Scanned(TwoDigits(s), s[2..])
    else if DigitIn(s, 0, '0', '0') && DigitIn(s, 1, '1', '9') then TwoDigitsValue(s); Scanned(TwoDigits(s), s[2..])
    else if DigitIn(s, 0, '1', '9') then OneDigitValue(s); Scanned(DigitValue(s[0]), s[1..])
    else NoParse
  }

  /** `%d`: `3[01]|[12]\d|0[1-9]|[1-9]| [1-9]`; the last alternative is a
      space followed by a digit, read as that digit. */
  function Day(s: String): (r: Scan<nat>)
    ensures r.Scanned? <==>
      DigitIn(s, 0, '1', '9') || ((DigitIn(s, 0, '0', '0') || DigitIn(s, 0, ' ', ' ')) && DigitIn(s, 1, '1', '9'))
    ensures r.Scanned? ==> 1 <= r.value <= 31 && |r.rest| < |s| && r.rest == s[|s| - |r.rest|..]
    ensures r.Scanned? ==> var k := |s| - |r.rest|;
      if s[0] == ' ' then k == 2 && IsDigit(s[1]) && r.value == DigitValue(s[1])
      else (k == 1 || k == 2) && AllDigits(s[..k]) && r.value == DigitsValue(s[..k])
  {
    if DigitIn(s, 0, '3', '3') && DigitIn(s, 1, '0', '1') then TwoDigitsValue(s); Scanned(TwoDigits(s), s[2..])
    else if DigitIn(s, 0, '1', '2') && DigitIn(s, 1, '0', '9') then TwoDigitsValue(s); Scanned(TwoDigits(s), s[2..])
    else if DigitIn(s, 0, '0', '0') && DigitIn(s, 1, '1', '9') then TwoDigitsValue(s); Scanned(TwoDigits(s), s[2..])
    else if DigitIn(s, 0, '1', '9') then OneDigitValue(s); Scanned(DigitValue(s[0]), s[1..])
    else if |s| >= 2 && s[0] == ' ' && DigitIn(s, 1, '1', '9') then Scanned(DigitValue(s[1]), s[2..])
    else NoParse
  }

  /** `%H`: `2[0-3]|[01]\d|\d`. */
  function Hour(s: String): (r: Scan<nat>)
    ensures r.Scanned? <==> DigitIn(s, 0, '0', '9')
    ensures r.Scanned? ==> r.value < 24 && |r.rest| < |s| && r.rest == s[|s| - |r.rest|..]
    ensures r.Scanned? ==> var k := |s| - |r.rest|;
      (k == 1 || k == 2) && AllDigits(s[..k]) && r.value == DigitsValue(s[..k])
  {
    if DigitIn(s, 0, '2', '2') && DigitIn(s, 1, '0', '3') then TwoDigitsValue(s); Scanned(TwoDigits(s), s[2..])
    else if DigitIn(s, 0, '0', '1') && DigitIn(s, 1, '0', '9') then TwoDigitsValue(s); Scanned(TwoDigits(s), s[2..])
    else if DigitIn(s, 0, '0', '9') then OneDigitValue(s); Scanned(DigitValue(s[0]), s[1..])
    else NoParse
  }

  /** `%M`: `[0-5]\d|\d`. */
  function Minute(s: String): (r: Scan<nat>)
    ensures r.Scanned? <==> DigitIn(s, 0, '0', '9')
    ensures r.Scanned? ==> r.value < 60 && |r.rest| < |s| && r.rest == s[|s| - |r.rest|..]
    ensures r.Scanned? ==> var k := |s| - |r.rest|;
      (k == 1 || k == 2) && AllDigits(s[..k]) && r.value == DigitsValue(s[..k])
  {
    if DigitIn(s, 0, '0', '5') && DigitIn(s, 1, '0', '9') then TwoDigitsValue(s); Scanned(TwoDigits(s), s[2..])
    else if DigitIn(s, 0, '0', '9') then OneDigitValue(s); Scanned(DigitValue(s[0]), s[1..])
    else NoParse
  }

  /** The value of the two digits at the start of `s`. */
  function TwoDigits(s: String): nat
    requires |s| >= 2 && IsDigit(s[0]) && IsDigit(s[1])
  {
    DigitValue(s[0]) * 10 + DigitValue(s[1])
  }

  lemma OneDigitValue(s: String)
    requires |s| >= 1 && IsDigit(s[0])
    ensures AllDigits(s[..1]) && DigitsValue(s[..1]) == DigitValue(s[0])
  {
    assert s[..1][..0] == [];
  }

  lemma TwoDigitsValue(s: String)
    requires |s| >= 2 && IsDigit(s[0]) && IsDigit(s[1])
    ensures AllDigits(s[..2]) && DigitsValue(s[..2]) == TwoDigits(s)
  {
    assert s[..2][..1] == s[..1];
    OneDigitValue(s);
  }

  lemma PaddedBound(s: String)
    requires |s| == 4 && AllDigits(s)
    ensures DigitsValue(s) <= 9999
  {
    DigitsBound(s);
  }

  /** `%Y-%m-%d`: year, month and day. */
  function MatchYearMonthDay(s: String): (r: Scan<(nat, nat, nat)>)
    ensures r.Scanned? ==> r.value.0 <= 9999 && 1 <= r.value.1 <= 12 && 1 <= r.value.2 <= 31 && |r.rest| < |s|
  {
    var y :- Year(s);
    var a :- Lit(y.1, '-');
    var m :- Month(a.1);
    var b :- Lit(m.1, '-');
    var d :- Day(b.1);
    Scanned((y.0, m.0, d.0), d.1)
  }

  /** `%d-%m-%Y`: day, month and year, returned as year, month, day. */
  function MatchDayMonthYear(s: String): (r: Scan<(nat, nat, nat)>)
    ensures r.Scanned? ==> r.value.0 <= 9999 && 1 <= r.value.1 <= 12 && 1 <= r.value.2 <= 31 && |r.rest| < |s|
  {
    var d :- Day(s);
    var a :- Lit(d.1, '-');
    var m :- Month(a.1);
    var b :- Lit(m.1, '-');
    var y :- Year(b.1);
    Scanned((y.0, m.0, d.0), y.1)
  }

  /** `%H:%M`: hour and minute. */
  function MatchHourMinute(s: String): (r: Scan<(nat, nat)>)
    ensures r.Scanned? ==> r.value.0 < 24 && r.value.1 < 60 && |r.rest| < |s|
  {
    var h :- Hour(s);
    var c :- Lit(h.1, ':');
    var mi :- Minute(c.1);
    Scanned((h.0, mi.0), mi.1)
  }

  /** The pattern of `%Y-%m-%d %H:%M`, matched from the start of `s`; seconds
      are not in the layout and read as 0. */
  function MatchDateFirst(s: String): (r: Scan<DateTime>)
    ensures r.Scanned? ==> InFieldRanges(r.value) && |r.rest| < |s|
  {
    var date :- MatchYearMonthDay(s);
    var w :- Spaces(date.1);
    var clock :- MatchHourMinute(w.1);
    Scanned(DateTime(date.0.0, date.0.1, date.0.2, clock.0.0, clock.0.1, 0), clock.1)
  }

  /** The pattern of `%H:%M %d-%m-%Y`, matched from the start of `s`. */
  function MatchTimeFirst(s: String): (r: Scan<DateTime>)
    ensures r.Scanned? ==> InFieldRanges(r.value) && |r.rest| < |s|
  {
    var clock :- MatchHourMinute(s);
    var w :- Spaces(clock.1);
    var date :- MatchDayMonthYear(w.1);
    Scanned(DateTime(date.0.0, date.0.1, date.0.2, clock.0.0, clock.0.1, 0), date.1)
  }

  /** The calendar check `datetime` applies to the fields: the year first,
      then the day of the month. */
  function CheckCalendar(d: DateTime): (r: Result<DateTime>)
    requires InFieldRanges(d)
    ensures r.Ok? <==> Valid(d)
    ensures r.Ok? ==> r.value == d
    ensures r.Err? ==> r.error == (if d.year == 0 then YearOutOfRange else DayOutOfRange)
  {
    if d.year == 0 then Err(YearOutOfRange)
    else if d.day > DaysInMonth(d.year, d.month) then Err(DayOutOfRange)
    else Ok(d)
  }

  /** `datetime.datetime.strptime(s, layout)`. */
  function Parse(s: String, layout: Layout): (r: Result<DateTime>)
    ensures r.Ok? ==> Valid(r.value) && r.value.second == 0
    ensures s == [] ==> r == Err(NoMatch)
  {
    var m := if layout == DateFirst then MatchDateFirst(s) else MatchTimeFirst(s);
    if m.NoParse? then Err(NoMatch)
    else if m.rest != [] then Err(UnconvertedData(m.rest))
    else CheckCalendar(m.value)
  }

  // ----------------------------------------------------------- rendering

  /** `d.strftime('%Y-%m-%d %H:%M')`: the zero-padded spelling of layout A. */
  function FormatDateFirst(d: DateTime): String {
    Padded(d.year, 4) + "-" + Padded(d.month, 2) + "-" + Padded(d.day, 2) + " " +
    Padded(d.hour, 2) + ":" + Padded(d.minute, 2)
  }

  /** `d.strftime('%H:%M %d-%m-%Y')`: the zero-padded spelling of layout B,
      also used to pre-fill the form with the current time. */
  function FormatTimeFirst(d: DateTime): String {
    Padded(d.hour, 2) + ":" + Padded(d.minute, 2) + " " +
    Padded(d.day, 2) + "-" + Padded(d.month, 2) + "-" + Padded(d.year, 4)
  }

  /** `d.strftime('%Y-%m-%dT%H:%M:%S.000+0000')`: the `started` value of a
      work log. The offset is written literally; nothing is converted. */
  function Timestamp(d: DateTime): (t: String)
    ensures |t| == 28
  {
    Padded(d.year, 4) + "-" + Padded(d.month, 2) + "-" + Padded(d.day, 2) + "T" +
    Padded(d.hour, 2) + ":" + Padded(d.minute, 2) + ":" + Padded(d.second, 2) + ".000+0000"
  }

  /** `strptime(s, layout).strftime('%Y-%m-%dT%H:%M:%S.000+0000')`. */
  function Relayout(s: String, layout: Layout): (r: Result<String>)
    ensures r.Err? <==> Parse(s, layout).Err?
  {
    match Parse(s, layout)
    case Ok(d) => Ok(Timestamp(d))
    case Err(e) => Err(e)
  }

  // -------------------------------------------------------------- lemmas

  lemma Padded2(n: nat)
    requires n < 100
    ensures Padded(n, 2) == [DigitChar(n / 10), DigitChar(n % 10)]
    ensures TwoDigits(Padded(n, 2)) == n
  {
  }

  lemma Padded4(n: nat)
    requires n <= 9999
    ensures DigitsValue(Padded(n, 4)) == n
  {
    PaddedRoundTrip(n, 4);
  }

  lemma YearOfPadded(n: nat, rest: String)
    requires n <= 9999
    ensures Year(Padded(n, 4) + rest) == Scanned(n, rest)
  {
    var s := Padded(n, 4) + rest;
    assert s[..4] == Padded(n, 4);
    Padded4(n);
  }

  lemma MonthOfPadded(n: nat, rest: String)
    requires 1 <= n <= 12
    ensures Month(Padded(n, 2) + rest) == Scanned(n, rest)
  {
    var s := Padded(n, 2) + rest;
    Padded2(n);
    assert s[..2] == Padded(n, 2);
  }

  lemma DayOfPadded(n: nat, rest: String)
    requires 1 <= n <= 31
    ensures Day(Padded(n, 2) + rest) == Scanned(n, rest)
  {
    var s := Padded(n, 2) + rest;
    Padded2(n);
    assert s[..2] == Padded(n, 2);
  }

  lemma HourOfPadded(n: nat, rest: String)
    requires n < 24
    ensures Hour(Padded(n, 2) + rest) == Scanned(n, rest)
  {
    var s := Padded(n, 2) + rest;
    Padded2(n);
    assert s[..2] == Padded(n, 2);
  }

  lemma MinuteOfPadded(n: nat, rest: String)
    requires n < 60
    ensures Minute(Padded(n, 2) + rest) == Scanned(n, rest)
  {
    var s := Padded(n, 2) + rest;
    Padded2(n);
    assert s[..2] == Padded(n, 2);
  }

  lemma SpacesBeforeDigit(rest: String)
    requires rest != [] && IsDigit(rest[0])
    ensures Spaces(" " + rest) == Scanned((), rest)
  {
    var s := " " + rest;
    assert s[0] == ' ' && s[1] == rest[0];
    assert !IsSpace(rest[0]);
    assert SkipSpace(s, 0) == SkipSpace(s, 1) == 1;
    assert s[1..] == rest;
  }

  lemma LitOf(c: char, rest: String)
    ensures Lit([c] + rest, c) == Scanned((), rest)
  {
    assert ([c] + rest)[1..] == rest;
  }

  /** The spelling `a-b-c` + rest, grouped from the right. */
  lemma DashedRight(a: String, b: String, c: String, rest: String)
    ensures a + "-" + b + "-" + c + rest == a + ("-" + (b + ("-" + (c + rest))))
  {
  }

  lemma YearMonthDayOfPadded(d: DateTime, rest: String)
    requires InFieldRanges(d)
    ensures MatchYearMonthDay(Padded(d.year, 4) + "-" + Padded(d.month, 2) + "-" + Padded(d.day, 2) + rest)
         == Scanned((d.year, d.month, d.day), rest)
  {
    var tDay := Padded(d.day, 2) + rest;
    var tMonth := Padded(d.month, 2) + ("-" + tDay);
    DashedRight(Padded(d.year, 4), Padded(d.month, 2), Padded(d.day, 2), rest);
    YearOfPadded(d.year, "-" + tMonth);
    LitOf('-', tMonth);
    MonthOfPadded(d.month, "-" + tDay);
    LitOf('-', tDay);
    DayOfPadded(d.day, rest);
  }

  lemma DayMonthYearOfPadded(d: DateTime, rest: String)
    requires InFieldRanges(d)
    ensures MatchDayMonthYear(Padded(d.day, 2) + "-" + Padded(d.month, 2) + "-" + Padded(d.year, 4) + rest)
         == Scanned((d.year, d.month, d.day), rest)
  {
    var tYear := Padded(d.year, 4) + rest;
    var tMonth := Padded(d.month, 2) + ("-" + tYear);
    DashedRight(Padded(d.day, 2), Padded(d.month, 2), Padded(d.year, 4), rest);
    DayOfPadded(d.day, "-" + tMonth);
    LitOf('-', tMonth);
    MonthOfPadded(d.month, "-" + tYear);
    LitOf('-', tYear);
    YearOfPadded(d.year, rest);
  }

  lemma HourMinuteOfPadded(d: DateTime, rest: String)
    requires InFieldRanges(d)
    ensures MatchHourMinute(Padded(d.hour, 2) + ":" + Padded(d.minute, 2) + rest) == Scanned((d.hour, d.minute), rest)
  {
    var tMin := Padded(d.minute, 2) + rest;
    assert Padded(d.hour, 2) + ":" + Padded(d.minute, 2) + rest == Padded(d.hour, 2) + (":" + tMin);
    HourOfPadded(d.hour, ":" + tMin);
    assert (":" + tMin)[1..] == tMin;
    assert Lit(":" + tMin, ':') == Scanned((), tMin);
    MinuteOfPadded(d.minute, rest);
  }

  lemma {:induction false} MatchFormatDateFirst(d: DateTime, rest: String)
    requires InFieldRanges(d)
    ensures MatchDateFirst(FormatDateFirst(d) + rest) == Scanned(d, rest)
  {
    var tClock := Padded(d.hour, 2) + ":" + Padded(d.minute, 2);
    var tDate := Padded(d.year, 4) + "-" + Padded(d.month, 2) + "-" + Padded(d.day, 2);
    assert FormatDateFirst(d) + rest == tDate + (" " + (tClock + rest));
    YearMonthDayOfPadded(d, " " + (tClock + rest));
    Padded2(d.hour);
    SpacesBeforeDigit(tClock + rest);
    HourMinuteOfPadded(d, rest);
  }

  lemma {:induction false} MatchFormatTimeFirst(d: DateTime, rest: String)
    requires InFieldRanges(d)
    ensures MatchTimeFirst(FormatTimeFirst(d) + rest) == Scanned(d, rest)
  {
    var tClock := Padded(d.hour, 2) + ":" + Padded(d.minute, 2);
    var tDate := Padded(d.day, 2) + "-" + Padded(d.month, 2) + "-" + Padded(d.year, 4);
    assert FormatTimeFirst(d) + rest == tClock + (" " + (tDate + rest));
    HourMinuteOfPadded(d, " " + (tDate + rest));
    Padded2(d.day);
    SpacesBeforeDigit(tDate + rest);
    DayMonthYearOfPadded(d, rest);
  }

  /** Reading the zero-padded layout-A spelling of any field values the
      patterns admit gives those values back, subject only to the calendar:
      year 0 and a day the month lacks are refused, everything else accepted. */
  lemma ParseFormatDateFirst(d: DateTime)
    requires InFieldRanges(d)
    ensures Parse(FormatDateFirst(d), DateFirst) == CheckCalendar(d)
  {
    MatchFormatDateFirst(d, []);
    assert FormatDateFirst(d) + [] == FormatDateFirst(d);
  }

  /** The same for the zero-padded layout-B spelling. */
  lemma ParseFormatTimeFirst(d: DateTime)
    requires InFieldRanges(d)
    ensures Parse(FormatTimeFirst(d), TimeFirst) == CheckCalendar(d)
  {
    MatchFormatTimeFirst(d, []);
    assert FormatTimeFirst(d) + [] == FormatTimeFirst(d);
  }

  /** Text after a complete date is reported as unconverted data, before the
      calendar is consulted. */
  lemma TrailingTextDateFirst(d: DateTime, rest: String)
    requires InFieldRanges(d) && rest != []
    ensures Parse(FormatDateFirst(d) + rest, DateFirst) == Err(UnconvertedData(rest))
  {
    MatchFormatDateFirst(d, rest);
  }

  /** The same for layout B. */
  lemma TrailingTextTimeFirst(d: DateTime, rest: String)
    requires InFieldRanges(d) && rest != []
    ensures Parse(FormatTimeFirst(d) + rest, TimeFirst) == Err(UnconvertedData(rest))
  {
    MatchFormatTimeFirst(d, rest);
  }

  /** Layout A starts with the four digits of the year: a text that does not
      is not a date. */
  lemma DateFirstNeedsFourDigits(s: String)
    requires !(|s| >= 4 && AllDigits(s[..4]))
    ensures Parse(s, DateFirst) == Err(NoMatch)
  {
    assert Year(s) == NoParse;
  }

  /** In particular anything but a digit in front, a space included, makes
      the text no layout-A date. */
  lemma DateFirstNeedsLeadingDigit(s: String)
    requires s == [] || !IsDigit(s[0])
    ensures Parse(s, DateFirst) == Err(NoMatch)
  {
    if |s| >= 4 {
      assert s[..4][0] == s[0];
    }
    DateFirstNeedsFourDigits(s);
  }

  /** Layout B has its colon after one or two digits: a text starting with
      three digits is no layout-B date. */
  lemma TimeFirstNeedsEarlyColon(s: String)
    requires |s| >= 3 && IsDigit(s[0]) && IsDigit(s[1]) && IsDigit(s[2])
    ensures Parse(s, TimeFirst) == Err(NoMatch)
  {
    assert s[1..][0] == s[1] && s[2..][0] == s[2];
    assert MatchHourMinute(s) == NoParse;
  }

  /** Neither layout reads the other: a layout-A spelling is refused in
      layout B ... */
  lemma DateFirstIsNotTimeFirst(d: DateTime)
    ensures Parse(FormatDateFirst(d), TimeFirst) == Err(NoMatch)
  {
    var a := FormatDateFirst(d);
    var y := Padded(d.year, 4);
    assert a == y + ("-" + Padded(d.month, 2) + "-" + Padded(d.day, 2) + " " + Padded(d.hour, 2) + ":" + Padded(d.minute, 2));
    assert a[0] == y[0] && a[1] == y[1] && a[2] == y[2];
    TimeFirstNeedsEarlyColon(a);
  }

  /** ... and a layout-B spelling in layout A. */
  lemma TimeFirstIsNotDateFirst(d: DateTime)
    ensures Parse(FormatTimeFirst(d), DateFirst) == Err(NoMatch)
  {
    var b := FormatTimeFirst(d);
    var c := Padded(d.hour, 2) + ":";
    assert b == c + (Padded(d.minute, 2) + " " + Padded(d.day, 2) + "-" + Padded(d.month, 2) + "-" + Padded(d.year, 4));
    assert b[..4][2] == c[2] == ':';
    DateFirstNeedsFourDigits(b);
  }

  // ------------------------------------------------- looser spellings

  lemma MonthOfDigit(n: nat, rest: String)
    requires 1 <= n <= 9 && (rest == [] || !IsDigit(rest[0]))
    ensures Month([DigitChar(n)] + rest) == Scanned(n, rest)
  {
    var s := [DigitChar(n)] + rest;
    assert s[0] == DigitChar(n) && s[1..] == rest;
  }

  lemma DayOfDigit(n: nat, rest: String)
    requires 1 <= n <= 9 && (rest == [] || !IsDigit(rest[0]))
    ensures Day([DigitChar(n)] + rest) == Scanned(n, rest)
  {
    var s := [DigitChar(n)] + rest;
    assert s[0] == DigitChar(n) && s[1..] == rest;
  }

  /** The last alternative of `%d`: a space and one digit. */
  lemma DayOfSpacedDigit(n: nat, rest: String)
    requires 1 <= n <= 9
    ensures Day([' ', DigitChar(n)] + rest) == Scanned(n, rest)
  {
    var s := [' ', DigitChar(n)] + rest;
    assert s[0] == ' ' && s[1] == DigitChar(n) && s[2..] == rest;
  }

  lemma HourOfDigit(n: nat, rest: String)
    requires n <= 9 && (rest == [] || !IsDigit(rest[0]))
    ensures Hour([DigitChar(n)] + rest) == Scanned(n, rest)
  {
    var s := [DigitChar(n)] + rest;
    assert s[0] == DigitChar(n) && s[1..] == rest;
  }

  lemma MinuteOfDigit(n: nat, rest: String)
    requires n <= 9 && (rest == [] || !IsDigit(rest[0]))
    ensures Minute([DigitChar(n)] + rest) == Scanned(n, rest)
  {
    var s := [DigitChar(n)] + rest;
    assert s[0] == DigitChar(n) && s[1..] == rest;
  }

  // ------------------------------------------------- reading back a parse

  /** An accepted layout-A text starts with the four digits of the year it
      was read as. */
  lemma ParsedYearDateFirst(s: String)
    requires Parse(s, DateFirst).Ok?
    ensures |s| >= 4 && AllDigits(s[..4]) && DigitsValue(s[..4]) == Parse(s, DateFirst).value.year
  {
    var m := MatchDateFirst(s);
    assert m.Scanned? && Parse(s, DateFirst).value == m.value;
    var date := MatchYearMonthDay(s);
    assert date.Scanned? && m.value.year == date.value.0;
    assert Year(s).Scanned? && date.value.0 == Year(s).value;
  }

  /** An accepted layout-B text starts with one or two digits and a colon,
      and those digits are the hour it was read as. */
  lemma ParsedHourTimeFirst(s: String)
    requires Parse(s, TimeFirst).Ok?
    ensures |s| > 2 && (s[1] == ':' || s[2] == ':')
    ensures var k := if s[1] == ':' then 1 else 2;
      AllDigits(s[..k]) && DigitsValue(s[..k]) == Parse(s, TimeFirst).value.hour
  {
    assert MatchTimeFirst(s).Scanned?;
    var c := MatchHourMinute(s);
    assert c.Scanned?;
    var h := Hour(s);
    assert h.Scanned?;
    var k := |s| - |h.rest|;
    assert Lit(h.rest, ':').Scanned?;
    assert h.rest[0] == s[k];
    assert Minute(h.rest[1..]).Scanned?;
  }

  /** Layout-A text put together from the spellings of its five fields. */
  function DateFirstText(y: String, m: String, dd: String, h: String, mi: String): String {
    y + ("-" + (m + ("-" + (dd + (" " + (h + (":" + mi)))))))
  }

  /** The date part of a layout-A text: each field read where the text
      before it left off. */
  lemma DatePart(y: String, m: String, dd: String, d: DateTime, rest: String)
    requires var tDay := dd + rest; var tMonth := m + ("-" + tDay);
      Year(y + ("-" + tMonth)) == Scanned(d.year, "-" + tMonth) &&
      Month(m + ("-" + tDay)) == Scanned(d.month, "-" + tDay) &&
      Day(tDay) == Scanned(d.day, rest)
    ensures MatchYearMonthDay(y + ("-" + (m + ("-" + (dd + rest))))) == Scanned((d.year, d.month, d.day), rest)
  {
    var tDay := dd + rest;
    var tMonth := m + ("-" + tDay);
    LitOf('-', tMonth);
    LitOf('-', tDay);
  }

  /** The clock part of a layout-A text, which ends the text. */
  lemma ClockPart(h: String, mi: String, d: DateTime)
    requires Hour(h + (":" + mi)) == Scanned(d.hour, ":" + mi)
    requires Minute(mi) == Scanned(d.minute, [])
    ensures MatchHourMinute(h + (":" + mi)) == Scanned((d.hour, d.minute), [])
  {
    LitOf(':', mi);
  }

  /** Whenever each field is spelled in a way its pattern reads as the
      field's value, the layout-A text parses to the date, subject to the
      calendar. */
  lemma ParseSpelled(y: String, m: String, dd: String, h: String, mi: String, d: DateTime)
    requires InFieldRanges(d)
    requires var tDay := dd + (" " + (h + (":" + mi))); var tMonth := m + ("-" + tDay);
      Year(y + ("-" + tMonth)) == Scanned(d.year, "-" + tMonth) &&
      Month(m + ("-" + tDay)) == Scanned(d.month, "-" + tDay) &&
      Day(tDay) == Scanned(d.day, " " + (h + (":" + mi)))
    requires Hour(h + (":" + mi)) == Scanned(d.hour, ":" + mi)
    requires Minute(mi) == Scanned(d.minute, [])
    requires h != [] && IsDigit(h[0])
    ensures Parse(DateFirstText(y, m, dd, h, mi), DateFirst) == CheckCalendar(d)
  {
    var clock := h + (":" + mi);
    DatePart(y, m, dd, d, " " + clock);
    assert clock[0] == h[0];
    SpacesBeforeDigit(clock);
    ClockPart(h, mi, d);
  }

  /** `%m`, `%d` and `%H` also take a single digit: the unpadded spelling of
      a date is read like the padded one. */
  lemma UnpaddedFieldsAccepted(d: DateTime)
    requires InFieldRanges(d) && d.month <= 9 && d.day <= 9 && d.hour <= 9
    ensures Parse(DateFirstText(Padded(d.year, 4), [DigitChar(d.month)], [DigitChar(d.day)],
                                [DigitChar(d.hour)], Padded(d.minute, 2)), DateFirst) == CheckCalendar(d)
  {
    var y, m, dd, h, mi := Padded(d.year, 4), [DigitChar(d.month)], [DigitChar(d.day)], [DigitChar(d.hour)], Padded(d.minute, 2);
    var tDay := dd + (" " + (h + (":" + mi)));
    var tMonth := m + ("-" + tDay);
    YearOfPadded(d.year, "-" + tMonth);
    MonthOfDigit(d.month, "-" + tDay);
    DayOfDigit(d.day, " " + (h + (":" + mi)));
    HourOfDigit(d.hour, ":" + mi);
    MinuteOfPadded(d.minute, []);
    assert mi + [] == mi;
    ParseSpelled(y, m, dd, h, mi, d);
  }

  /** A one-digit day may come with a space in front of it. */
  lemma SpacedDayAccepted(d: DateTime)
    requires InFieldRanges(d) && d.day <= 9
    ensures Parse(DateFirstText(Padded(d.year, 4), Padded(d.month, 2), [' ', DigitChar(d.day)],
                                Padded(d.hour, 2), Padded(d.minute, 2)), DateFirst) == CheckCalendar(d)
  {
    var y, m, dd, h, mi := Padded(d.year, 4), Padded(d.month, 2), [' ', DigitChar(d.day)], Padded(d.hour, 2), Padded(d.minute, 2);
    var tDay := dd + (" " + (h + (":" + mi)));
    var tMonth := m + ("-" + tDay);
    YearOfPadded(d.year, "-" + tMonth);
    MonthOfPadded(d.month, "-" + tDay);
    DayOfSpacedDigit(d.day, " " + (h + (":" + mi)));
    HourOfPadded(d.hour, ":" + mi);
    MinuteOfPadded(d.minute, []);
    assert mi + [] == mi;
    Padded2(d.hour);
    ParseSpelled(y, m, dd, h, mi, d);
  }

  /** `%H` stops at 23: two digits above that are no hour followed by a
      colon. */
  lemma LateClockRejected(h: nat, mi: String)
    requires 24 <= h <= 99
    ensures MatchHourMinute(Padded(h, 2) + (":" + mi)) == NoParse
  {
    var t := Padded(h, 2) + (":" + mi);
    Padded2(h);
    assert t[0] == Padded(h, 2)[0] && t[1] == Padded(h, 2)[1];
    assert Hour(t) == Scanned(DigitValue(t[0]), t[1..]);
    assert t[1..][0] == t[1];
  }

  /** So a layout-A text with such an hour does not match, whatever
      follows. */
  lemma LateHourRejected(d: DateTime, h: nat, mi: String)
    requires InFieldRanges(d) && 24 <= h <= 99
    ensures Parse(DateFirstText(Padded(d.year, 4), Padded(d.month, 2), Padded(d.day, 2), Padded(h, 2), mi), DateFirst)
         == Err(NoMatch)
  {
    var t := Padded(h, 2) + (":" + mi);
    var y, m, dd := Padded(d.year, 4), Padded(d.month, 2), Padded(d.day, 2);
    var tDay := dd + (" " + t);
    var tMonth := m + ("-" + tDay);
    YearOfPadded(d.year, "-" + tMonth);
    MonthOfPadded(d.month, "-" + tDay);
    DayOfPadded(d.day, " " + t);
    DatePart(y, m, dd, d, " " + t);
    assert t[0] == Padded(h, 2)[0];
    SpacesBeforeDigit(t);
    LateClockRejected(h, mi);
  }

  /** The form is pre-filled with the current time in layout B; submitting it
      unchanged gives back that time to the minute. */
  lemma PrefillRoundTrip(now: DateTime)
    requires Valid(now)
    ensures Parse(FormatTimeFirst(now), TimeFirst) == Ok(now.(second := 0))
  {
    ParseFormatTimeFirst(now.(second := 0));
  }

  /** The timestamp begins with the layout-A spelling of the same minute
      (with `T` for the space) and ends with the seconds and the literal
      `.000+0000`. */
  lemma TimestampShape(d: DateTime)
    ensures var t := Timestamp(d);
      t[..10] == FormatDateFirst(d)[..10] && t[10] == 'T' && t[11..16] == FormatDateFirst(d)[11..] &&
      t[16..] == ":" + Padded(d.second, 2) + ".000+0000"
  {
  }

  /** The date and the minute of a timestamp, joined by a space, are the
      layout-A spelling. */
  lemma TimestampToDateFirst(d: DateTime)
    ensures Timestamp(d)[..10] + " " + Timestamp(d)[11..16] == FormatDateFirst(d)
  {
    var t, f := Timestamp(d), FormatDateFirst(d);
    TimestampShape(d);
    assert |f| == 16 && f[10] == ' ';
    assert f == f[..10] + " " + f[11..];
  }

  lemma TimestampPieces(d: DateTime)
    requires d.second == 0
    ensures Timestamp(d) ==
      (Padded(d.year, 4) + "-" + Padded(d.month, 2) + "-" + Padded(d.day, 2)) + "T" +
      (Padded(d.hour, 2) + ":" + Padded(d.minute, 2)) + ":00.000+0000"
  {
    Padded2(0);
  }

  lemma RelayoutOfParsed(s: String, layout: Layout)
    requires Parse(s, layout).Ok?
    ensures Relayout(s, layout) == Ok(Timestamp(Parse(s, layout).value))
  {
  }

  lemma DateFirstPieces(d: DateTime)
    ensures var s := FormatDateFirst(d);
      s[..10] == Padded(d.year, 4) + "-" + Padded(d.month, 2) + "-" + Padded(d.day, 2) &&
      s[11..] == Padded(d.hour, 2) + ":" + Padded(d.minute, 2)
  {
    var tDate := Padded(d.year, 4) + "-" + Padded(d.month, 2) + "-" + Padded(d.day, 2);
    var tClock := Padded(d.hour, 2) + ":" + Padded(d.minute, 2);
    assert FormatDateFirst(d) == tDate + " " + tClock;
  }

  lemma TimeFirstPieces(d: DateTime)
    ensures var s := FormatTimeFirst(d);
      s[12..] == Padded(d.year, 4) && s[9..11] == Padded(d.month, 2) && s[6..8] == Padded(d.day, 2) &&
      s[..5] == Padded(d.hour, 2) + ":" + Padded(d.minute, 2)
  {
    var tClock := Padded(d.hour, 2) + ":" + Padded(d.minute, 2);
    var s := FormatTimeFirst(d);
    assert s == tClock + " " + Padded(d.day, 2) + "-" + Padded(d.month, 2) + "-" + Padded(d.year, 4);
    assert s[..5] == tClock;
    assert s[6..8] == Padded(d.day, 2);
    assert s[9..11] == Padded(d.month, 2);
  }

  /** The `started` value is a pure rearrangement of a zero-padded layout-A
      input: the space becomes `T`, and `:00.000+0000` is appended. */
  lemma {:induction false} RelayoutDateFirst(d: DateTime)
    requires Valid(d) && d.second == 0
    ensures var s := FormatDateFirst(d);
      Relayout(s, DateFirst) == Ok(s[..10] + "T" + s[11..] + ":00.000+0000")
  {
    ParseFormatDateFirst(d);
    RelayoutOfParsed(FormatDateFirst(d), DateFirst);
    DateFirstPieces(d);
    TimestampPieces(d);
  }

  /** The same for layout B: the fields are reordered to year, month, day,
      hour, minute. */
  lemma {:induction false} RelayoutTimeFirst(d: DateTime)
    requires Valid(d) && d.second == 0
    ensures var s := FormatTimeFirst(d);
      Relayout(s, TimeFirst) == Ok(s[12..] + "-" + s[9..11] + "-" + s[6..8] + "T" + s[..5] + ":00.000+0000")
  {
    ParseFormatTimeFirst(d);
    RelayoutOfParsed(FormatTimeFirst(d), TimeFirst);
    TimeFirstPieces(d);
    TimestampPieces(d);
  }

  /** The two layouts are different spellings of the same minute: both give
      the same `started` value, or both fail with the same calendar error. */
  lemma LayoutsAgree(d: DateTime)
    requires InFieldRanges(d)
    ensures Relayout(FormatDateFirst(d), DateFirst) == Relayout(FormatTimeFirst(d), TimeFirst)
  {
    ParseFormatDateFirst(d);
    ParseFormatTimeFirst(d);
  }

  /** Whatever text produced it, a `started` value read back in layout A
      (date part, a space, the hour and minute) gives the parsed minute. */
  lemma {:induction false} TimestampReadsBack(s: String, layout: Layout)
    requires Parse(s, layout).Ok?
    ensures var t := Relayout(s, layout).value;
      Parse(t[..10] + " " + t[11..16], DateFirst) == Parse(s, layout)
  {
    var d := Parse(s, layout).value;
    TimestampToDateFirst(d);
    ParseFormatDateFirst(d);
  }
}

/** Worked cases of the date re-layout: the canonical form from either
    layout, and the calendar rules `datetime` applies. */
module DateExamples {
  import opened Text
  import opened Dates

  const March5 := DateTime(2024, 3, 5, 9, 30, 0)

  lemma March5Year() ensures Padded(2024, 4) == "2024" {}
  lemma March5Month() ensures Padded(3, 2) == "03" {}
  lemma March5Day() ensures Padded(5, 2) == "05" {}
  lemma March5Hour() ensures Padded(9, 2) == "09" {}
  lemma March5Minute() ensures Padded(30, 2) == "30" {}
  lemma ZeroSeconds() ensures Padded(0, 2) == "00" {}

  lemma March5DateFirst()
    ensures FormatDateFirst(March5) == "2024-03-05 09:30"
  {
    March5Year(); March5Month(); March5Day(); March5Hour(); March5Minute();
  }

  lemma March5TimeFirst()
    ensures FormatTimeFirst(March5) == "09:30 05-03-2024"
  {
    March5Year(); March5Month(); March5Day(); March5Hour(); March5Minute();
  }

  lemma March5Timestamp()
    ensures Timestamp(March5) == "2024-03-05T09:30:00.000+0000"
  {
    March5Year(); March5Month(); March5Day(); March5Hour(); March5Minute(); ZeroSeconds();
    assert Timestamp(March5) == "2024" + "-" + "03" + "-" + "05" + "T" + "09" + ":" + "30" + ":" + "00" + ".000+0000";
  }

  lemma ExampleCanonicalFromDateFirst()
    ensures Relayout("2024-03-05 09:30", DateFirst) == Ok("2024-03-05T09:30:00.000+0000")
  {
    March5DateFirst();
    ParseFormatDateFirst(March5);
    March5Timestamp();
  }

  lemma ExampleCanonicalFromTimeFirst()
    ensures Relayout("09:30 05-03-2024", TimeFirst) == Ok("2024-03-05T09:30:00.000+0000")
  {
    March5TimeFirst();
    ParseFormatTimeFirst(March5);
    March5Timestamp();
  }

  /** 29 February exists in 2024 and 2000, not in 2023 or 1900. */
  lemma ExampleLeapDays()
    ensures CheckCalendar(DateTime(2024, 2, 29, 10, 0, 0)) == Ok(DateTime(2024, 2, 29, 10, 0, 0))
    ensures CheckCalendar(DateTime(2000, 2, 29, 10, 0, 0)) == Ok(DateTime(2000, 2, 29, 10, 0, 0))
    ensures CheckCalendar(DateTime(2023, 2, 29, 10, 0, 0)) == Err(DayOutOfRange)
    ensures CheckCalendar(DateTime(1900, 2, 29, 10, 0, 0)) == Err(DayOutOfRange)
  {
  }

  /** Year 0000 fits `%Y` but not the calendar, and is reported before the
      impossible day. */
  lemma ExampleYearZero()
    ensures CheckCalendar(DateTime(0, 2, 31, 0, 0, 0)) == Err(YearOutOfRange)
  {
  }
}
