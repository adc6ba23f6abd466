/**
 * Calendar date-times as Python's `datetime` holds them, the three text
 * layouts the application writes with `strftime`, and the reading of the
 * entry form's "dd/mm/YYYY HH:MM:SS" text that `datetime.strptime` performs.
 */
module Timestamps {
  import opened Wrappers
  import opened Text

  datatype DateTime = DateTime(year: int, month: int, day: int, hour: int, minute: int, second: int)

  /** A calendar day: what SQL's `DATE(fecha_hora)` keeps of a date-time. */
  datatype Date = Date(year: int, month: int, day: int)

  predicate IsLeapYear(y: int)
  {
    y % 4 == 0 && (y % 100 != 0 || y % 400 == 0)
  }

  function DaysInMonth(y: int, m: int): (d: int)
    requires 1 <= m <= 12
    ensures 28 <= d <= 31
    ensures d == 31 <==> m in {1, 3, 5, 7, 8, 10, 12}
    ensures d == 29 <==> m == 2 && IsLeapYear(y)
    ensures d == 30 <==> m == 4 || m == 6 || m == 9 || m == 11
  {
    if m == 2 then (if IsLeapYear(y) then 29 else 28)
    else if m == 4 || m == 6 || m == 9 || m == 11 then 30
    else 31
  }

  /** The date-times `datetime` accepts: years 1..9999, real calendar days, no leap second. */
  predicate ValidDateTime(t: DateTime)
  {
    && 1 <= t.year <= 9999
    && 1 <= t.month <= 12
    && 1 <= t.day <= DaysInMonth(t.year, t.month)
    && 0 <= t.hour < 24
    && 0 <= t.minute < 60
    && 0 <= t.second < 60
  }

  function DateOf(t: DateTime): Date
  {
    Date(t.year, t.month, t.day)
  }

  /** Chronological order of calendar days. */
  predicate DateLe(a: Date, b: Date)
  {
    a.year < b.year
    || (a.year == b.year && a.month < b.month)
    || (a.year == b.year && a.month == b.month && a.day <= b.day)
  }

  /** `strftime("%d/%m/%Y %H:%M:%S")`: the entry form's default text, two-digit fields and a four-digit year. */
  function FormatDisplay(t: DateTime): string
    requires ValidDateTime(t)
  {
    JoinDisplay(PaddedParts(t))
  }

  /**
   * `strftime("%Y-%m-%d %H:%M:%S")`: the text handed to the DATETIME column.
   * The six fields can be read back from their fixed positions.
   */
  function FormatSql(t: DateTime): (r: string)
    requires ValidDateTime(t)
    ensures |r| == 19 && r[4] == '-' && r[7] == '-' && r[10] == ' ' && r[13] == ':' && r[16] == ':'
    ensures AllDigits(r[0..4]) && DigitsValue(r[0..4]) == t.year
    ensures AllDigits(r[5..7]) && DigitsValue(r[5..7]) == t.month
    ensures AllDigits(r[8..10]) && DigitsValue(r[8..10]) == t.day
    ensures AllDigits(r[11..13]) && DigitsValue(r[11..13]) == t.hour
    ensures AllDigits(r[14..16]) && DigitsValue(r[14..16]) == t.minute
    ensures AllDigits(r[17..19]) && DigitsValue(r[17..19]) == t.second
  {
    var r := Pad4(t.year) + "-" + Pad2(t.month) + "-" + Pad2(t.day) + " "
             + Pad2(t.hour) + ":" + Pad2(t.minute) + ":" + Pad2(t.second);
    assert r[0..4] == Pad4(t.year);
    assert r[5..7] == Pad2(t.month);
    assert r[8..10] == Pad2(t.day);
    assert r[11..13] == Pad2(t.hour);
    assert r[14..16] == Pad2(t.minute);
    assert r[17..19] == Pad2(t.second);
    r
  }

  /**
   * `strftime("%Y%m%d_%H%M%S")`: the stamp in stored upload names.
   * The six fields can be read back from their fixed positions.
   */
  function FormatCompact(t: DateTime): (r: string)
    requires ValidDateTime(t)
    ensures |r| == 15 && r[8] == '_'
    ensures AllDigits(r[0..4]) && DigitsValue(r[0..4]) == t.year
    ensures AllDigits(r[4..6]) && DigitsValue(r[4..6]) == t.month
    ensures AllDigits(r[6..8]) && DigitsValue(r[6..8]) == t.day
    ensures AllDigits(r[9..11]) && DigitsValue(r[9..11]) == t.hour
    ensures AllDigits(r[11..13]) && DigitsValue(r[11..13]) == t.minute
    ensures AllDigits(r[13..15]) && DigitsValue(r[13..15]) == t.second
  {
    var r := Pad4(t.year) + Pad2(t.month) + Pad2(t.day) + "_"
             + Pad2(t.hour) + Pad2(t.minute) + Pad2(t.second);
    assert r[0..4] == Pad4(t.year);
    assert r[4..6] == Pad2(t.month);
    assert r[6..8] == Pad2(t.day);
    assert r[9..11] == Pad2(t.hour);
    assert r[11..13] == Pad2(t.minute);
    assert r[13..15] == Pad2(t.second);
    r
  }

  /** Two valid date-times with the same compact stamp are the same date-time. */
  lemma FormatCompactInjective(a: DateTime, b: DateTime)
    requires ValidDateTime(a) && ValidDateTime(b)
    requires FormatCompact(a) == FormatCompact(b)
    ensures a == b
  {
    var r := FormatCompact(a);
    assert DigitsValue(r[0..4]) == a.year == b.year;
    assert DigitsValue(r[4..6]) == a.month == b.month;
  }

  // The texts `strptime` accepts for each directive: the alternatives of its
  // regular expressions, `%d` = 3[01]|[12]\d|0[1-9]|[1-9]| [1-9],
  // `%m` = 1[0-2]|0[1-9]|[1-9], `%H` = 2[0-3]|[0-1]\d|\d,
  // `%M` = [0-5]\d|\d, `%S` = 6[0-1]|[0-5]\d|\d, `%Y` = four digits.

  predicate DayText(t: string)
  {
    (|t| == 1 && '1' <= t[0] <= '9')
    || (|t| == 2 && (
         (t[0] == '3' && '0' <= t[1] <= '1')
         || ('1' <= t[0] <= '2' && IsDigit(t[1]))
         || (t[0] == '0' && '1' <= t[1] <= '9')
         || (t[0] == ' ' && '1' <= t[1] <= '9')))
  }

  predicate MonthText(t: string)
  {
    (|t| == 1 && '1' <= t[0] <= '9')
    || (|t| == 2 && ((t[0] == '1' && '0' <= t[1] <= '2') || (t[0] == '0' && '1' <= t[1] <= '9')))
  }

  predicate HourText(t: string)
  {
    (|t| == 1 && IsDigit(t[0]))
    || (|t| == 2 && ((t[0] == '2' && '0' <= t[1] <= '3') || ('0' <= t[0] <= '1' && IsDigit(t[1]))))
  }

  predicate MinuteText(t: string)
  {
    (|t| == 1 && IsDigit(t[0]))
    || (|t| == 2 && '0' <= t[0] <= '5' && IsDigit(t[1]))
  }

  predicate SecondText(t: string)
  {
    (|t| == 1 && IsDigit(t[0]))
    || (|t| == 2 && (('0' <= t[0] <= '5' && IsDigit(t[1])) || (t[0] == '6' && '0' <= t[1] <= '1')))
  }

  /** `int(t)` for a field text, which ignores the leading blank `%d` allows. */
  function FieldValue(t: string): nat
    requires DayText(t) || MonthText(t) || HourText(t) || MinuteText(t) || SecondText(t)
  {
    if t[0] == ' ' then DigitValue(t[1]) else DigitsValue(t)
  }

  /**
   * The pieces of a text laid out as "dd/mm/YYYY HH:MM:SS": the four field
   * separators are implied, and `gap` is the whitespace run that the blank of
   * the format matches.
   */
  datatype DisplayParts = DisplayParts(dayT: string, monthT: string, yearT: string, gap: string,
                                       hourT: string, minuteT: string, secondT: string)

  /** The part after the year: the whitespace run and the three clock fields. */
  datatype ClockParts = ClockParts(gap: string, hourT: string, minuteT: string, secondT: string)

  function ClockOf(p: DisplayParts): ClockParts
  {
    ClockParts(p.gap, p.hourT, p.minuteT, p.secondT)
  }

  function ClockText(c: ClockParts): string
  {
    c.gap + c.hourT + [':'] + c.minuteT + [':'] + c.secondT
  }

  /** The text the pieces make up. */
  function JoinDisplay(p: DisplayParts): string
  {
    p.dayT + ['/'] + p.monthT + ['/'] + p.yearT + ClockText(ClockOf(p))
  }

  /** A non-empty whitespace run that the hour does not continue, and no ':' in the hour or the minute. */
  predicate ClockCut(c: ClockParts)
  {
    && c.gap != [] && (forall k :: 0 <= k < |c.gap| ==> IsSpace(c.gap[k]))
    && (c.hourT == [] || !IsSpace(c.hourT[0]))
    && ':' !in c.hourT && ':' !in c.minuteT
  }

  /**
   * Pieces the pattern cuts a text into: no '/' in the day or the month, four
   * characters of year, then a well-cut clock part.
   */
  predicate WellCut(p: DisplayParts)
  {
    '/' !in p.dayT && '/' !in p.monthT && |p.yearT| == 4 && ClockCut(ClockOf(p))
  }

  /** Each field text is one of its directive's alternatives; the year is four digits. */
  predicate FieldsAccepted(p: DisplayParts)
  {
    && |p.yearT| == 4 && AllDigits(p.yearT)
    && DayText(p.dayT) && MonthText(p.monthT)
    && HourText(p.hourT) && MinuteText(p.minuteT) && SecondText(p.secondT)
  }

  /** The date-time the accepted field texts spell, before the calendar is consulted. */
  function FieldsValue(p: DisplayParts): DateTime
    requires FieldsAccepted(p)
  {
    DateTime(DigitsValue(p.yearT), FieldValue(p.monthT), FieldValue(p.dayT),
             FieldValue(p.hourT), FieldValue(p.minuteT), FieldValue(p.secondT))
  }

  /** The text before the first `c` and the text after it. */
  function SplitOnce(s: string, c: char): (r: Option<(string, string)>)
    ensures r.None? <==> c !in s
    ensures r.Some? ==> c !in r.value.0 && s == r.value.0 + [c] + r.value.1
  {
    match IndexOf(s, c)
    case None => None
    case Some(i) =>
      assert s == s[..i] + [c] + s[i + 1..];
      Some((s[..i], s[i + 1..]))
  }

  lemma SplitOnceJoin(a: string, c: char, b: string)
    requires c !in a
    ensures SplitOnce(a + [c] + b, c) == Some((a, b))
  {
    IndexOfJoin(a, c, b);
    var s := a + [c] + b;
    assert s[..|a|] == a && s[|a| + 1..] == b;
  }

  lemma SplitAt(s: string, w: nat)
    requires w <= |s|
    ensures s == s[..w] + s[w..]
  {
  }

  lemma AppendAssoc(a: string, b: string, c: string)
    ensures a + (b + c) == a + b + c
  {
  }

  /** The day, the month and the year, cut at the first '/', the next '/' and after four characters. */
  function CutDate(s: string): (r: Option<(string, string, string, string)>)
    ensures r.Some? ==> '/' !in r.value.0 && '/' !in r.value.1 && |r.value.2| == 4
    ensures r.Some? ==> s == r.value.0 + ['/'] + r.value.1 + ['/'] + r.value.2 + r.value.3
  {
    match SplitOnce(s, '/')
    case None => None
    case Some((dayT, afterDay)) =>
      match SplitOnce(afterDay, '/')
      case None => None
      case Some((monthT, afterMonth)) =>
        if |afterMonth| < 4 then None
        else
          var yearT, afterYear := afterMonth[..4], afterMonth[4..];
          assert afterMonth == yearT + afterYear;
          var x := dayT + ['/'];
          AppendAssoc(x, monthT + ['/'], afterMonth);
          AppendAssoc(x, monthT, ['/']);
          AppendAssoc(x + monthT + ['/'], yearT, afterYear);
          Some((dayT, monthT, yearT, afterYear))
  }

  /** The whitespace run after the year, then the hour, the minute and the second around two ':'. */
  function CutClock(afterYear: string): (r: Option<ClockParts>)
    ensures r.Some? ==> ClockCut(r.value) && ClockText(r.value) == afterYear
  {
    var w := LeadingSpaces(afterYear);
    if w == 0 then None
    else
      var gap, clock := afterYear[..w], afterYear[w..];
      match SplitOnce(clock, ':')
      case None => None
      case Some((hourT, afterHour)) =>
        match SplitOnce(afterHour, ':')
        case None => None
        case Some((minuteT, secondT)) =>
          ClockPieces(afterYear, w, hourT, afterHour, minuteT, secondT);
          Some(ClockParts(gap, hourT, minuteT, secondT))
  }

  /** The pieces `CutClock` finds satisfy `ClockCut` and make up its input again. */
  lemma ClockPieces(afterYear: string, w: nat, hourT: string, afterHour: string, minuteT: string, secondT: string)
    requires 0 < w <= |afterYear|
    requires forall i :: 0 <= i < w ==> IsSpace(afterYear[i])
    requires w < |afterYear| ==> !IsSpace(afterYear[w])
    requires ':' !in hourT && afterYear[w..] == hourT + [':'] + afterHour
    requires ':' !in minuteT && afterHour == minuteT + [':'] + secondT
    ensures ClockCut(ClockParts(afterYear[..w], hourT, minuteT, secondT))
    ensures ClockText(ClockParts(afterYear[..w], hourT, minuteT, secondT)) == afterYear
  {
    var gap, clock := afterYear[..w], afterYear[w..];
    assert hourT != [] ==> hourT[0] == clock[0] == afterYear[w];
    SplitAt(afterYear, w);
    ClockGlue(gap, hourT, minuteT, secondT, afterHour, clock);
  }

  /** A text cut at two ':' after a whitespace run is made up of those pieces. */
  lemma ClockGlue(gap: string, hourT: string, minuteT: string, secondT: string, afterHour: string, clock: string)
    requires afterHour == minuteT + [':'] + secondT && clock == hourT + [':'] + afterHour
    ensures gap + clock == gap + hourT + [':'] + minuteT + [':'] + secondT
  {
    AppendAssoc(gap, hourT + [':'], afterHour);
    AppendAssoc(gap, hourT, [':']);
    var x := gap + hourT + [':'];
    AppendAssoc(x, minuteT + [':'], secondT);
    AppendAssoc(x, minuteT, [':']);
  }

  /**
   * Where the pattern's separators fall in `s`: at the first '/', the next
   * '/', after four characters of year, after the whitespace run, at the
   * next ':' and at the one after it. The pieces found make up `s` again.
   */
  function CutDisplay(s: string): (r: Option<DisplayParts>)
    ensures r.Some? ==> WellCut(r.value) && JoinDisplay(r.value) == s
  {
    match CutDate(s)
    case None => None
    case Some((dayT, monthT, yearT, afterYear)) =>
      match CutClock(afterYear)
      case None => None
      case Some(c) =>
        var p := DisplayParts(dayT, monthT, yearT, c.gap, c.hourT, c.minuteT, c.secondT);
        assert ClockOf(p) == c;
        Some(p)
  }

  /**
   * `datetime.strptime(s, "%d/%m/%Y %H:%M:%S")`, with `None` where it raises
   * `ValueError`. The whole text must match; each field is one of its
   * directive's alternatives; the blank of the format matches one or more
   * whitespace characters; the year is exactly four digits; and the fields
   * must name a real date-time (no 31 April, no 29 February outside leap
   * years, no year 0, no second 60 or 61).
   */
  function ParseDisplay(s: string): (r: Option<DateTime>)
    ensures r.Some? ==> ValidDateTime(r.value)
    ensures r.Some? ==> CutDisplay(s).Some? && FieldsAccepted(CutDisplay(s).value)
                        && r.value == FieldsValue(CutDisplay(s).value)
  {
    match CutDisplay(s)
    case None => None
    case Some(p) =>
      if FieldsAccepted(p) && ValidDateTime(FieldsValue(p)) then Some(FieldsValue(p)) else None
  }

  /** A whitespace run followed by a non-whitespace character is exactly what `\s+` takes. */
  lemma {:induction false} LeadingSpacesJoin(ws: string, rest: string)
    requires forall k :: 0 <= k < |ws| ==> IsSpace(ws[k])
    requires rest != [] && !IsSpace(rest[0])
    ensures LeadingSpaces(ws + rest) == |ws|
  {
    if ws != [] {
      assert (ws + rest)[1..] == ws[1..] + rest;
      LeadingSpacesJoin(ws[1..], rest);
    }
  }

  lemma CutClockJoin(c: ClockParts)
    requires ClockCut(c)
    ensures CutClock(ClockText(c)) == Some(c)
  {
    var afterHour := c.minuteT + [':'] + c.secondT;
    var clock := c.hourT + [':'] + afterHour;
    ClockGlue(c.gap, c.hourT, c.minuteT, c.secondT, afterHour, clock);
    var afterYear := c.gap + clock;
    assert clock[0] == if c.hourT == [] then ':' else c.hourT[0];
    LeadingSpacesJoin(c.gap, clock);
    assert afterYear[..|c.gap|] == c.gap && afterYear[|c.gap|..] == clock;
    SplitOnceJoin(c.hourT, ':', afterHour);
    SplitOnceJoin(c.minuteT, ':', c.secondT);
  }

  lemma CutDateJoin(dayT: string, monthT: string, yearT: string, afterYear: string)
    requires '/' !in dayT && '/' !in monthT && |yearT| == 4
    ensures CutDate(dayT + ['/'] + monthT + ['/'] + yearT + afterYear) == Some((dayT, monthT, yearT, afterYear))
  {
    var afterMonth := yearT + afterYear;
    var afterDay := monthT + ['/'] + afterMonth;
    var x := dayT + ['/'];
    AppendAssoc(x, monthT + ['/'], afterMonth);
    AppendAssoc(x, monthT, ['/']);
    AppendAssoc(x + monthT + ['/'], yearT, afterYear);
    SplitOnceJoin(dayT, '/', afterDay);
    SplitOnceJoin(monthT, '/', afterMonth);
    assert afterMonth[..4] == yearT && afterMonth[4..] == afterYear;
  }

  /** The cut is unique: pieces that are well cut are exactly what the cut finds in their text. */
  lemma CutJoin(p: DisplayParts)
    requires WellCut(p)
    ensures CutDisplay(JoinDisplay(p)) == Some(p)
  {
    CutDateJoin(p.dayT, p.monthT, p.yearT, ClockText(ClockOf(p)));
    CutClockJoin(ClockOf(p));
  }

  /**
   * A text laid out as the format lays it out parses to t exactly when every
   * field text is accepted, t holds the fields' values, and t is a real
   * date-time; so an impossible date such as 31/04 is refused.
   */
  lemma ParseDisplayLayout(p: DisplayParts, t: DateTime)
    requires WellCut(p)
    ensures ParseDisplay(JoinDisplay(p)) == Some(t) <==> FieldsAccepted(p) && t == FieldsValue(p) && ValidDateTime(t)
  {
    CutJoin(p);
  }

  /** Accepted field texts that name no real date-time are refused. */
  lemma ImpossibleDateRefused(p: DisplayParts)
    requires WellCut(p) && FieldsAccepted(p) && !ValidDateTime(FieldsValue(p))
    ensures ParseDisplay(JoinDisplay(p)) == None
  {
    CutJoin(p);
  }

  /** "31/04/2024 10:00:00": April has 30 days, so the text is refused. */
  lemma ThirtyFirstOfAprilRefused()
    ensures ParseDisplay(JoinDisplay(DisplayParts("31", "04", "2024", " ", "10", "00", "00"))) == None
  {
    var p := DisplayParts("31", "04", "2024", " ", "10", "00", "00");
    assert WellCut(p) by {
      assert ClockCut(ClockOf(p)) by {
        assert IsSpace(' ') && !IsSpace('1');
      }
    }
    assert FieldsAccepted(p) by {
      assert AllDigits("2024");
      assert DayText("31") && MonthText("04") && HourText("10") && MinuteText("00") && SecondText("00");
    }
    assert FieldsValue(p).month == 4 && FieldsValue(p).day == 31 by {
      DigitsValueTwo("04");
      DigitsValueTwo("31");
    }
    ImpossibleDateRefused(p);
  }

  lemma Pad2Fields(n: nat)
    requires n < 100
    ensures n < 24 ==> HourText(Pad2(n))
    ensures n < 60 ==> MinuteText(Pad2(n)) && SecondText(Pad2(n))
    ensures 1 <= n <= 12 ==> MonthText(Pad2(n))
    ensures 1 <= n <= 31 ==> DayText(Pad2(n))
    ensures n < 60 ==> FieldValue(Pad2(n)) == n
  {
  }

  /** The pieces `strftime("%d/%m/%Y %H:%M:%S")` writes for t. */
  function PaddedParts(t: DateTime): DisplayParts
    requires ValidDateTime(t)
  {
    DisplayParts(Pad2(t.day), Pad2(t.month), Pad4(t.year), [' '], Pad2(t.hour), Pad2(t.minute), Pad2(t.second))
  }

  lemma PaddedFields(t: DateTime)
    requires ValidDateTime(t)
    ensures WellCut(PaddedParts(t)) && FieldsAccepted(PaddedParts(t)) && FieldsValue(PaddedParts(t)) == t
  {
    Pad2Fields(t.day);
    Pad2Fields(t.month);
    Pad2Fields(t.hour);
    Pad2Fields(t.minute);
    Pad2Fields(t.second);
  }

  /** The form's default text (what `strftime` wrote) reads back as the same date-time. */
  lemma ParseFormatDisplay(t: DateTime)
    requires ValidDateTime(t)
    ensures ParseDisplay(FormatDisplay(t)) == Some(t)
  {
    PaddedFields(t);
    ParseDisplayLayout(PaddedParts(t), t);
  }
}
