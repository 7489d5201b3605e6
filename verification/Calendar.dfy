// The two proleptic Gregorian calendars of the hub: the inverse pair used for
// credential time stamps, and the second day count of the session loaders.
// A day number counts days from 1970-01-01; years are unbounded integers.
// Divisions round toward zero, which is written out where an operand can be
// negative.

module Calendar {
  datatype Date = Date(year: int, month: int, day: int)

  /** Division that rounds toward zero. */
  function TruncDiv(a: int, b: int): int
    requires b > 0
  {
    if a >= 0 then a / b else -((-a) / b)
  }

  predicate IsLeapYear(year: int) {
    year % 4 == 0 && (year % 100 != 0 || year % 400 == 0)
  }

  function DaysInMonth(year: int, month: int): int {
    match month
    case 1 => 31 case 3 => 31 case 5 => 31 case 7 => 31
    case 8 => 31 case 10 => 31 case 12 => 31
    case 4 => 30 case 6 => 30 case 9 => 30 case 11 => 30
    case 2 => if IsLeapYear(year) then 29 else 28
    case _ => 0
  }

  predicate ValidDate(d: Date) {
    1 <= d.month <= 12 && 1 <= d.day <= DaysInMonth(d.year, d.month)
  }

  /** The day after `d`, by the month lengths alone. */
  function NextDate(d: Date): Date {
    if d.day < DaysInMonth(d.year, d.month) then d.(day := d.day + 1)
    else if d.month < 12 then Date(d.year, d.month + 1, 1)
    else Date(d.year + 1, 1, 1)
  }

  /** Day count of the credential refresher; its year is unsigned. */
  function DaysFromCivil(year: nat, month: int, day: int): int {
    var y := year - (if month <= 2 then 1 else 0);
    var era := if y >= 0 then y / 400 else TruncDiv(y - 399, 400);
    var yearOfEra := y - era * 400;
    var dayOfYear := TruncDiv(153 * (month + (if month > 2 then -3 else 9)) + 2, 5) + day - 1;
    var dayOfEra := yearOfEra * 365 + yearOfEra / 4 - yearOfEra / 100 + dayOfYear;
    era * 146097 + dayOfEra - 719468
  }

  /** Day count of the session loaders; its year is signed. */
  function SessionDaysFromCivil(year: int, month: int, day: int): int {
    var y := year - (if month <= 2 then 1 else 0);
    var era := TruncDiv(if y >= 0 then y else y - 399, 400);
    var yearOfEra := y - era * 400;
    var adjustedMonth := month + (if month > 2 then -3 else 9);
    var dayOfYear := TruncDiv(153 * adjustedMonth + 2, 5) + day - 1;
    var dayOfEra := yearOfEra * 365 + yearOfEra / 4 - yearOfEra / 100 + dayOfYear;
    era * 146097 + dayOfEra - 719468
  }

  function DayNumber(d: Date): int {
    SessionDaysFromCivil(d.year, d.month, d.day)
  }

  function CivilFromDays(days: int): Date {
    var shifted := days + 719468;
    var era := if shifted >= 0 then shifted / 146097 else TruncDiv(shifted - 146096, 146097);
    var dayOfEra := shifted - era * 146097;
    var yearOfEra := YearOfEra(dayOfEra);
    var dayOfYear := dayOfEra - (365 * yearOfEra + yearOfEra / 4 - yearOfEra / 100);
    var monthPart := TruncDiv(5 * dayOfYear + 2, 153);
    var day := dayOfYear - TruncDiv(153 * monthPart + 2, 5) + 1;
    var month := monthPart + (if monthPart < 10 then 3 else -9);
    var year := yearOfEra + era * 400;
    Date(year + (if month <= 2 then 1 else 0), month, day)
  }

  function YearOfEra(dayOfEra: int): int {
    TruncDiv(dayOfEra - TruncDiv(dayOfEra, 1460) + TruncDiv(dayOfEra, 36524)
             - TruncDiv(dayOfEra, 146096), 365)
  }

  // ----- A 400-year era, counted from the first of March -----

  /** First day of the March-based year `y` within its era. */
  function YearStart(y: int): int {
    365 * y + y / 4 - y / 100
  }

  /** Length of the March-based year `y` of an era. */
  function YearLength(y: int): int {
    if (y + 1) % 4 == 0 && ((y + 1) % 100 != 0 || y == 399) then 366 else 365
  }

  lemma YearStartStep(y: int)
    requires 0 <= y < 400
    ensures YearStart(y) + YearLength(y) == if y == 399 then 146097 else YearStart(y + 1)
  {
  }

  /** The year formula inverts the year starts on every day of an era. */
  lemma YearOfEraInverts(y: int, dayOfYear: int)
    requires 0 <= y < 400 && 0 <= dayOfYear < YearLength(y)
    ensures YearOfEra(YearStart(y) + dayOfYear) == y
  {
    var c, q, r := y / 100, (y % 100) / 4, y % 4;
    YearParts(y, c, q, r);
    hide YearStart, YearLength;
    EraQuotients(c, q, r, dayOfYear);
  }

  /** The corrections for leap days cancel to the year, up to the day in it. */
  lemma EraQuotients(c: int, q: int, r: int, dayOfYear: int)
    requires 0 <= c < 4 && 0 <= q < 25 && 0 <= r < 4
    requires 0 <= dayOfYear < if r == 3 && (q < 24 || c == 3) then 366 else 365
    ensures YearOfEra(36524 * c + 1461 * q + 365 * r + dayOfYear) == 100 * c + 4 * q + r
  {
    var doe := 36524 * c + 1461 * q + 365 * r + dayOfYear;
    var last := if doe == 146096 then 1 else 0;
    var e := 24 * c + q + 365 * r + dayOfYear;
    var carry := if e >= 1460 then 1 else 0;
    assert doe == 1460 * (25 * c + q + carry) + e - 1460 * carry;
    assert TruncDiv(doe, 1460) == 25 * c + q + carry;
    assert doe == 36524 * (c + last) + 1461 * q + 365 * r + dayOfYear - 36524 * last;
    assert TruncDiv(doe, 36524) == c + last;
    assert TruncDiv(doe, 146096) == last;
  }

  /** Century, four-year block and year: where the leap days sit. */
  lemma YearParts(y: int, c: int, q: int, r: int)
    requires 0 <= y < 400 && c == y / 100 && q == (y % 100) / 4 && r == y % 4
    ensures y == 100 * c + 4 * q + r && 0 <= c < 4 && 0 <= q < 25 && 0 <= r < 4
    ensures YearStart(y) == 36524 * c + 1461 * q + 365 * r
    ensures YearLength(y) == if r == 3 && (q < 24 || c == 3) then 366 else 365
  {
    assert y / 4 == 25 * c + q;
  }

  /** Every day of an era lies in exactly one March-based year. */
  lemma YearOfEraCovers(dayOfEra: int)
    requires 0 <= dayOfEra < 146097
    ensures var y := YearOfEra(dayOfEra);
            0 <= y < 400 && 0 <= dayOfEra - YearStart(y) < YearLength(y)
  {
    var y := FindYear(dayOfEra, 399);
    YearOfEraInverts(y, dayOfEra - YearStart(y));
  }

  /** The last March-based year up to `top` that starts on or before the day. */
  lemma FindYear(dayOfEra: int, top: int) returns (y: int)
    requires 0 <= top < 400 && 0 <= dayOfEra < YearStart(top) + YearLength(top)
    ensures 0 <= y < 400 && 0 <= dayOfEra - YearStart(y) < YearLength(y)
    decreases top
  {
    if dayOfEra >= YearStart(top) {
      y := top;
    } else {
      YearStartStep(top - 1);
      y := FindYear(dayOfEra, top - 1);
    }
  }

  // ----- The inverse pair -----

  /** The two day counts agree wherever both are defined. */
  lemma DayCountsAgree(year: nat, month: int, day: int)
    ensures DaysFromCivil(year, month, day) == SessionDaysFromCivil(year, month, day)
  {
  }

  /** Year and day of the March-based year in which a date lies. */
  ghost function MarchYear(d: Date): int {
    d.year - (if d.month <= 2 then 1 else 0)
  }

  ghost function DayOfMarchYear(d: Date): int {
    (153 * (d.month + (if d.month > 2 then -3 else 9)) + 2) / 5 + d.day - 1
  }

  lemma DayNumberByEra(d: Date)
    requires ValidDate(d)
    ensures var y := MarchYear(d) % 400;
            0 <= DayOfMarchYear(d) < YearLength(y)
            && DayNumber(d) == MarchYear(d) / 400 * 146097 + YearStart(y) + DayOfMarchYear(d) - 719468
  {
    var y := MarchYear(d);
    assert y % 400 == y - y / 400 * 400;
    assert y < 0 ==> TruncDiv(y - 399, 400) == y / 400;
    LeapByEra(d.year);
  }

  /** February ends the March-based year before its civil year. */
  lemma LeapByEra(year: int)
    ensures IsLeapYear(year) <==> YearLength((year - 1) % 400) == 366
  {
    hide IsLeapYear;
    var y := (year - 1) % 400;
    LeapRepeats((year - 1) / 400, y + 1);
    assert year == 400 * ((year - 1) / 400) + (y + 1);
    LeapInEra(y);
  }

  lemma LeapInEra(y: int)
    requires 0 <= y < 400
    ensures IsLeapYear(y + 1) <==> YearLength(y) == 366
  {
  }

  /** The leap rule repeats every four centuries. */
  lemma LeapRepeats(era: int, year: int)
    ensures IsLeapYear(400 * era + year) <==> IsLeapYear(year)
  {
    assert (400 * era + year) / 4 == 100 * era + year / 4;
    assert (400 * era + year) / 100 == 4 * era + year / 100;
    assert (400 * era + year) / 400 == era + year / 400;
  }

  /** The civil date of a day given by era, March-based year and day. */
  lemma CivilByEra(era: int, y: int, dayOfYear: int)
    requires 0 <= y < 400 && 0 <= dayOfYear < YearLength(y)
    ensures var d := CivilFromDays(era * 146097 + YearStart(y) + dayOfYear - 719468);
            var mp := (5 * dayOfYear + 2) / 153;
            d.day == dayOfYear - (153 * mp + 2) / 5 + 1
            && d.month == mp + (if mp < 10 then 3 else -9)
            && MarchYear(d) == y + era * 400
  {
    hide YearOfEra;
    YearStartBound(y);
    EraOfShifted(era, YearStart(y) + dayOfYear);
    YearOfEraInverts(y, dayOfYear);
    MonthPartCovers(dayOfYear);
  }

  /** The era of a shifted day, on both sides of zero. */
  lemma EraOfShifted(era: int, dayOfEra: int)
    requires 0 <= dayOfEra < 146097
    ensures var shifted := era * 146097 + dayOfEra;
            era == if shifted >= 0 then shifted / 146097 else TruncDiv(shifted - 146096, 146097)
  {
    var shifted := era * 146097 + dayOfEra;
    if shifted < 0 {
      assert -(shifted - 146096) == 146097 * (-era) + (146096 - dayOfEra);
    }
  }

  lemma PartsAreValid(d: Date, era: int, y: int, dayOfYear: int)
    requires 0 <= y < 400 && 0 <= dayOfYear < YearLength(y)
    requires var mp := (5 * dayOfYear + 2) / 153;
             d.day == dayOfYear - (153 * mp + 2) / 5 + 1
             && d.month == mp + (if mp < 10 then 3 else -9)
             && MarchYear(d) == y + era * 400
    ensures ValidDate(d) && DayOfMarchYear(d) == dayOfYear
    ensures MarchYear(d) / 400 == era && MarchYear(d) % 400 == y
  {
    MonthPartCovers(dayOfYear);
    LeapByEra(d.year);
    assert (y + era * 400) / 400 == era;
  }

  /** Every day number names a valid date, and that date counts back to it. */
  lemma CivilDateOfEveryDay(days: int)
    ensures ValidDate(CivilFromDays(days))
    ensures DayNumber(CivilFromDays(days)) == days
  {
    hide CivilFromDays, DayNumber, YearOfEra, YearStart, YearLength, MarchYear, DayOfMarchYear, ValidDate;
    var era, doe := (days + 719468) / 146097, (days + 719468) % 146097;
    YearOfEraCovers(doe);
    var y := YearOfEra(doe);
    var doy := doe - YearStart(y);
    CivilByEra(era, y, doy);
    PartsAreValid(CivilFromDays(days), era, y, doy);
    DayNumberByEra(CivilFromDays(days));
  }

  lemma MonthPartCovers(dayOfYear: int)
    requires 0 <= dayOfYear < 366
    ensures var mp := (5 * dayOfYear + 2) / 153;
            0 <= mp < 12
            && 0 <= dayOfYear - (153 * mp + 2) / 5
            && dayOfYear - (153 * mp + 2) / 5 < (if mp == 11 then 366 - 337 else MarchMonthLength(mp))
  {
  }

  ghost function MarchMonthLength(mp: int): int {
    if mp == 1 || mp == 3 || mp == 6 || mp == 8 then 30 else 31
  }

  /** Month and day are recovered from the day of the March-based year. */
  lemma PartsRecovered(d: Date)
    requires ValidDate(d)
    ensures var doy := DayOfMarchYear(d);
            var mp := (5 * doy + 2) / 153;
            d.day == doy - (153 * mp + 2) / 5 + 1
            && d.month == mp + (if mp < 10 then 3 else -9)
  {
  }

  /** Every valid date is the civil date of its day number. */
  lemma DayOfEveryCivilDate(d: Date)
    requires ValidDate(d)
    ensures CivilFromDays(DayNumber(d)) == d
  {
    hide CivilFromDays, DayNumber, ValidDate;
    var y := MarchYear(d) % 400;
    DayNumberByEra(d);
    CivilByEra(MarchYear(d) / 400, y, DayOfMarchYear(d));
    PartsRecovered(d);
    assert y + MarchYear(d) / 400 * 400 == MarchYear(d);
  }

  lemma YearStartBound(y: int)
    requires 0 <= y < 400
    ensures 0 <= YearStart(y) && YearStart(y) + YearLength(y) <= 146097
    decreases 400 - y
  {
    if y < 399 {
      YearStartStep(y);
      YearStartBound(y + 1);
    }
  }

  lemma YearStartZero()
    ensures YearStart(0) == 0
  {
  }

  lemma NextDateByEra(d: Date)
    requires ValidDate(d)
    ensures ValidDate(NextDate(d))
    ensures var n, y := NextDate(d), MarchYear(d);
            if DayOfMarchYear(d) + 1 < YearLength(y % 400)
            then MarchYear(n) == y && DayOfMarchYear(n) == DayOfMarchYear(d) + 1
            else MarchYear(n) == y + 1 && DayOfMarchYear(n) == 0
                 && DayOfMarchYear(d) + 1 == YearLength(y % 400)
  {
    LeapByEra(d.year);
  }

  /** Counting agrees with the calendar: the next date is the next number. */
  lemma SuccessorDate(d: Date)
    requires ValidDate(d)
    ensures ValidDate(NextDate(d))
    ensures DayNumber(NextDate(d)) == DayNumber(d) + 1
  {
    hide DayNumber, NextDate, ValidDate, MarchYear, DayOfMarchYear, YearStart, YearLength;
    NextDateByEra(d);
    DayNumberByEra(d);
    DayNumberByEra(NextDate(d));
    var y := MarchYear(d);
    YearStartStep(y % 400);
    YearStartZero();
    assert if y % 400 == 399 then (y + 1) / 400 == y / 400 + 1 && (y + 1) % 400 == 0
           else (y + 1) / 400 == y / 400 && (y + 1) % 400 == y % 400 + 1;
  }

  lemma YearStartsApart(a: int, b: int)
    requires 0 <= a < b < 400
    ensures YearStart(a) + YearLength(a) <= YearStart(b)
    decreases b - a
  {
    YearStartStep(a);
    if a + 1 < b {
      YearStartsApart(a + 1, b);
    }
  }

  /** A later March-based year has later days only. */
  lemma MarchYearsInOrder(c: Date, d: Date)
    requires ValidDate(c) && ValidDate(d) && MarchYear(c) < MarchYear(d)
    ensures DayNumber(c) < DayNumber(d)
  {
    hide DayNumber, ValidDate, MarchYear, DayOfMarchYear, YearStart, YearLength;
    DayNumberByEra(c);
    DayNumberByEra(d);
    var a, b := MarchYear(c) % 400, MarchYear(d) % 400;
    YearStartBound(a);
    YearStartBound(b);
    if MarchYear(c) / 400 == MarchYear(d) / 400 {
      YearStartsApart(a, b);
    } else {
      assert MarchYear(c) / 400 + 1 <= MarchYear(d) / 400;
    }
  }

  /** A date lies in a year or later exactly if its day number is that of the year's first day or more. */
  lemma YearsInOrder(d: Date, year: int)
    requires ValidDate(d)
    ensures ValidDate(Date(year, 1, 1))
    ensures d.year >= year <==> DayNumber(d) >= DayNumber(Date(year, 1, 1))
  {
    var first := Date(year, 1, 1);
    assert ValidDate(first) && MarchYear(first) == year - 1 && DayOfMarchYear(first) == 306;
    DayNumberByEra(d);
    DayNumberByEra(first);
    DayBeforeMarch(d);
    hide DayNumber, DayOfMarchYear, ValidDate, YearStart, YearLength;
    if MarchYear(d) < MarchYear(first) {
      MarchYearsInOrder(d, first);
    } else if MarchYear(first) < MarchYear(d) {
      MarchYearsInOrder(first, d);
    }
  }

  /** January and February end the March-based year. */
  lemma DayBeforeMarch(d: Date)
    requires ValidDate(d)
    ensures d.month <= 2 <==> DayOfMarchYear(d) >= 306
  {
  }

  lemma MonthBounds(d: Date)
    requires ValidDate(d)
    ensures 1 <= d.month <= 12 && 1 <= d.day <= DaysInMonth(d.year, d.month) <= 31
  {
  }

  lemma Epoch()
    ensures ValidDate(Date(1970, 1, 1)) && DayNumber(Date(1970, 1, 1)) == 0
  {
  }

  /** Dates counted one by one from the first of January 1970. */
  ghost function CountedDate(days: nat): Date {
    if days == 0 then Date(1970, 1, 1) else NextDate(CountedDate(days - 1))
  }

  /** The closed formula is the count: the unique date that many steps on. */
  lemma {:induction false} CivilDateIsCounted(days: nat)
    ensures CivilFromDays(days) == CountedDate(days)
    ensures ValidDate(CountedDate(days)) && DayNumber(CountedDate(days)) == days
  {
    hide CivilFromDays, DayNumber, ValidDate, NextDate;
    if days == 0 {
      Epoch();
    } else {
      CivilDateIsCounted(days - 1);
      SuccessorDate(CountedDate(days - 1));
    }
    DayOfEveryCivilDate(CountedDate(days));
  }
}
