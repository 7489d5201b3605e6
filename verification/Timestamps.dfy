// RFC 3339 time stamps of the credential refresher, the ISO 8601 parser of the
// session loaders, and the refresh decision built on them.

module Timestamps {
  import opened Basics
  import opened Calendar

  const EIGHT_DAYS_MS: int := 8 * 24 * 60 * 60 * 1000
  const NANOS_PER_MILLISECOND: int := 1_000_000
  const NANOS_PER_SECOND: int := 1_000_000_000
  const U32_LIMIT: int := 0x1_0000_0000

  // ----- Formatting -----

  function Digits(n: nat): seq<byte> {
    if n < 10 then [(48 + n) as byte] else Digits(n / 10) + [(48 + n % 10) as byte]
  }

  function Zeros(n: nat): seq<byte> {
    seq(n, i => 48 as byte)
  }

  /** Decimal digits filled up with leading zeros to at least `width`. */
  function PadNat(n: nat, width: nat): seq<byte> {
    var d := Digits(n);
    if |d| < width then Zeros(width - |d|) + d else d
  }

  /** A sign counts toward the width. */
  function PadInt(n: int, width: nat): seq<byte> {
    if n >= 0 then PadNat(n, width)
    else Ascii("-") + PadNat(-n, if width > 0 then width - 1 else 0)
  }

  /** The seven fields between their separators. */
  function Stamp(year: seq<byte>, month: seq<byte>, day: seq<byte>,
                 hour: seq<byte>, minute: seq<byte>, second: seq<byte>, millis: seq<byte>): seq<byte>
  {
    (year + Ascii("-") + month + Ascii("-") + day + Ascii("T"))
    + (hour + Ascii(":") + minute + Ascii(":") + second + Ascii(".") + millis + Ascii("Z"))
  }

  function FormatRfc3339Millis(nowMs: int): seq<byte> {
    var totalSeconds := nowMs / 1000;
    var secondsOfDay := totalSeconds % 86400;
    var date := CivilFromDays(totalSeconds / 86400);
    Stamp(PadInt(date.year, 4), PadInt(date.month, 2), PadInt(date.day, 2),
          PadInt(secondsOfDay / 3600, 2), PadInt(secondsOfDay % 3600 / 60, 2),
          PadInt(secondsOfDay % 60, 2), PadInt(nowMs % 1000, 3))
  }

  // ----- Parsing to nanoseconds -----

  /** Unsigned 32-bit accumulation; any byte from '0' upward is taken. */
  function FoldDigits(b: seq<byte>): (r: Option<nat>)
    ensures r.Some? ==> r.value < U32_LIMIT
  {
    if b == [] then Some(0) else
      match FoldDigits(b[..|b| - 1])
      case None => None
      case Some(value) =>
        var last := b[|b| - 1] as int;
        if value * 10 >= U32_LIMIT || last < 48 || value * 10 + (last - 48) >= U32_LIMIT then None
        else Some(value * 10 + (last - 48))
  }

  function ParseDigits(b: seq<byte>): Option<nat> {
    if b == [] then None else FoldDigits(b)
  }

  function FractionNanoseconds(fraction: seq<byte>): Option<nat> {
    if fraction == [] then Some(0)
    else if |fraction| > 9 then None
    else match ParseDigits(fraction)
      case None => None
      case Some(value) => Some(value * Pow10(9 - |fraction|))
  }

  predicate Separators(b: seq<byte>) {
    |b| >= 19 && b[4] == 45 && b[7] == 45 && b[10] == 84 && b[13] == 58 && b[16] == 58
  }

  /** The digits after the seconds, or nothing when the tail is malformed. */
  function FractionOf(b: seq<byte>): Option<seq<byte>>
    requires |b| >= 20
  {
    if b[19] == 90 && |b| == 20 then Some([])
    else if b[19] == 46 && b[|b| - 1] == 90 && |b| > 21 then
      var fraction := b[20..|b| - 1];
      if exists x <- fraction :: !IsDigit(x) then None else Some(fraction)
    else None
  }

  function ParseRfc3339Utc(b: seq<byte>): Option<int> {
    if |b| < 20 || !Separators(b) then None else
    match (ParseDigits(b[0..4]), ParseDigits(b[5..7]), ParseDigits(b[8..10]),
           ParseDigits(b[11..13]), ParseDigits(b[14..16]), ParseDigits(b[17..19]))
    case (Some(year), Some(month), Some(day), Some(hour), Some(minute), Some(second)) =>
      if year == 0 || month == 0 || month > 12 || day == 0 || day > DaysInMonth(year, month)
         || hour > 23 || minute > 59 || second > 59 then None
      else
        (match FractionOf(b)
         case None => None
         case Some(fraction) =>
           match FractionNanoseconds(fraction)
           case None => None
           case Some(nanoseconds) =>
             var seconds := DaysFromCivil(year, month, day) * 86400 + hour * 3600 + minute * 60 + second;
             Some(seconds * NANOS_PER_SECOND + nanoseconds))
    case _ => None
  }

  // ----- Parsing to milliseconds -----

  predicate AllDigits(b: seq<byte>) {
    forall x <- b :: IsDigit(x)
  }

  /** Value of a digit string, most significant digit first. */
  function DecimalValue(b: seq<byte>): int {
    if b == [] then 0 else DecimalValue(b[..|b| - 1]) * 10 + (b[|b| - 1] as int - 48)
  }

  method ParseDecimal(b: seq<byte>, start: nat, end: nat) returns (r: Option<int>)
    requires start <= end
    ensures r == if end <= |b| && AllDigits(b[start..end]) then Some(DecimalValue(b[start..end])) else None
  {
    if end > |b| {
      return None;
    }
    var field := b[start..end];
    var value := 0;
    for i := 0 to |field|
      invariant AllDigits(field[..i])
      invariant value == DecimalValue(field[..i])
    {
      if !IsDigit(field[i]) {
        assert field[i] in field;
        return None;
      }
      value := value * 10 + (field[i] as int - 48);
      assert field[..i + 1][..i] == field[..i];
    }
    assert field[..|field|] == field;
    return Some(value);
  }

  /** Number of leading digits, at most three. */
  function LeadingDigits(b: seq<byte>): nat {
    if b == [] || !IsDigit(b[0]) then 0
    else if |b| == 1 || !IsDigit(b[1]) then 1
    else if |b| == 2 || !IsDigit(b[2]) then 2
    else 3
  }

  /** Milliseconds of a fraction: its first three digits, filled with zeros. */
  function FractionMillis(b: seq<byte>): int
  {
    var n := LeadingDigits(b);
    DecimalValue(b[..n]) * Pow10(3 - n)
  }

  function FieldValue(b: seq<byte>, start: nat, end: nat): Option<int>
    requires start <= end <= |b|
  {
    if AllDigits(b[start..end]) then Some(DecimalValue(b[start..end])) else None
  }

  function ParseIso8601(b: seq<byte>): Option<int> {
    if !Separators(b) then None else
    match (FieldValue(b, 0, 4), FieldValue(b, 5, 7), FieldValue(b, 8, 10),
           FieldValue(b, 11, 13), FieldValue(b, 14, 16), FieldValue(b, 17, 19))
    case (Some(year), Some(month), Some(day), Some(hour), Some(minute), Some(second)) =>
      if !(1 <= month <= 12) || !(1 <= day <= 31) || hour > 23 || minute > 59 || second > 60 then None
      else
        var millis := if |b| > 19 && b[19] == 46 then FractionMillis(b[20..]) else 0;
        var days := SessionDaysFromCivil(year, month, day);
        Some((((days * 24 + hour) * 60 + minute) * 60 + second) * 1000 + millis)
    case _ => None
  }

  method ParseFractionMillis(b: seq<byte>) returns (out: int)
    ensures out == FractionMillis(b)
  {
    out := 0;
    var digits := 0;
    var i := 0;
    while i < |b|
      invariant 0 <= i <= |b| && digits == i <= 3
      invariant i <= LeadingDigits(b)
      invariant out == DecimalValue(b[..i])
    {
      if !IsDigit(b[i]) || digits == 3 {
        break;
      }
      assert b[..i + 1][..i] == b[..i];
      out := out * 10 + (b[i] as int - 48);
      digits := digits + 1;
      i := i + 1;
    }
    while digits < 3
      invariant LeadingDigits(b) <= digits <= 3
      invariant out == DecimalValue(b[..LeadingDigits(b)]) * Pow10(digits - LeadingDigits(b))
    {
      out := out * 10;
      digits := digits + 1;
    }
  }

  method ParseIso8601UtcMs(b: seq<byte>) returns (r: Option<int>)
    ensures r == ParseIso8601(b)
  {
    hide FractionMillis, SessionDaysFromCivil, DecimalValue, AllDigits;
    if !Separators(b) {
      return None;
    }
    var year := ParseDecimal(b, 0, 4);
    var month := ParseDecimal(b, 5, 7);
    var day := ParseDecimal(b, 8, 10);
    var hour := ParseDecimal(b, 11, 13);
    var minute := ParseDecimal(b, 14, 16);
    var second := ParseDecimal(b, 17, 19);
    if year.None? || month.None? || day.None? || hour.None? || minute.None? || second.None? {
      return None;
    }
    var millis := 0;
    if |b| > 19 && b[19] == 46 {
      millis := ParseFractionMillis(b[20..]);
    }
    if !(1 <= month.value <= 12) || !(1 <= day.value <= 31)
       || hour.value > 23 || minute.value > 59 || second.value > 60 {
      return None;
    }
    var days := SessionDaysFromCivil(year.value, month.value, day.value);
    return Some((((days * 24 + hour.value) * 60 + minute.value) * 60 + second.value) * 1000 + millis);
  }

  // ----- Decimal fields -----

  /** Padding puts the last digit after the padded rest of the number. */
  lemma PadStep(n: nat, width: nat)
    requires 1 < width
    ensures PadNat(n, width) == PadNat(n / 10, width - 1) + [(48 + n % 10) as byte]
  {
    if n < 10 {
      assert Digits(0) == [48 as byte];
      assert Zeros(width - 1) == Zeros(width - 2) + [48 as byte];
    }
  }

  /** A number below a power of ten is written in that many digits and read back. */
  lemma {:induction false} PadNatReads(n: nat, width: nat)
    requires 0 < width <= 9 && n < Pow10(width)
    ensures var d := PadNat(n, width);
            |d| == width && AllDigits(d) && DecimalValue(d) == n && ParseDigits(d) == Some(n)
  {
    var d := PadNat(n, width);
    if width == 1 {
      assert d == [(48 + n) as byte] && d[..0] == [];
    } else {
      hide PadNat, FoldDigits;
      PadNatReads(n / 10, width - 1);
      PadStep(n, width);
      assert d[..width - 1] == PadNat(n / 10, width - 1);
    }
    FoldIsDecimal(d);
  }

  lemma {:induction false} Pow10Below(n: nat)
    requires n <= 9
    ensures Pow10(n) <= 1_000_000_000
  {
    assert Pow10(9) == 1_000_000_000 && Pow10(8) == 100_000_000 && Pow10(7) == 10_000_000
        && Pow10(6) == 1_000_000 && Pow10(5) == 100_000 && Pow10(4) == 10_000;
  }

  /** On plain digits the 32-bit accumulation is the decimal value. */
  lemma {:induction false} FoldIsDecimal(b: seq<byte>)
    requires |b| <= 9 && AllDigits(b)
    ensures 0 <= DecimalValue(b) < Pow10(|b|)
    ensures FoldDigits(b) == Some(DecimalValue(b))
  {
    if b != [] {
      assert forall x <- b[..|b| - 1] :: x in b;
      assert b[|b| - 1] in b;
      FoldIsDecimal(b[..|b| - 1]);
      Pow10Below(|b|);
    }
  }

  lemma {:induction false} DigitsAreDigits(n: nat)
    ensures AllDigits(Digits(n))
    ensures n >= 10000 ==> |Digits(n)| >= 5
    ensures 1000 <= n ==> |Digits(n)| >= 4
  {
    if n >= 10 {
      DigitsAreDigits(n / 10);
      assert Digits(n / 10) != [] && Digits(n / 100) != [] && Digits(n / 1000) != [];
    }
  }

  // ----- The formatter and the nanosecond parser -----

  /** Civil year shown for an instant. */
  function YearOf(ms: int): int {
    CivilFromDays(ms / 1000 / 86400).year
  }

  /** The fixed columns of a time stamp with a four-digit year. */
  ghost predicate Columns(b: seq<byte>, d: Date, secondsOfDay: nat, millis: nat)
  {
    |b| == 24 && Separators(b) && b[19] == 46 && b[23] == 90
    && d.year >= 0 && d.month >= 0 && d.day >= 0
    && b[0..4] == PadNat(d.year, 4) && b[5..7] == PadNat(d.month, 2) && b[8..10] == PadNat(d.day, 2)
    && b[11..13] == PadNat(secondsOfDay / 3600, 2) && b[14..16] == PadNat(secondsOfDay % 3600 / 60, 2)
    && b[17..19] == PadNat(secondsOfDay % 60, 2) && b[20..23] == PadNat(millis, 3)
  }

  lemma StampColumns(year: seq<byte>, month: seq<byte>, day: seq<byte>,
                     hour: seq<byte>, minute: seq<byte>, second: seq<byte>, millis: seq<byte>)
    requires |year| == 4 && |month| == |day| == |hour| == |minute| == |second| == 2 && |millis| == 3
    ensures var b := Stamp(year, month, day, hour, minute, second, millis);
            |b| == 24 && Separators(b) && b[19] == 46 && b[23] == 90
            && b[0..4] == year && b[5..7] == month && b[8..10] == day
            && b[11..13] == hour && b[14..16] == minute && b[17..19] == second && b[20..23] == millis
  {
    var date := year + Ascii("-") + month + Ascii("-") + day + Ascii("T");
    var time := hour + Ascii(":") + minute + Ascii(":") + second + Ascii(".") + millis + Ascii("Z");
    assert |date| == 11 && date[0..4] == year && date[5..7] == month && date[8..10] == day;
    TimeColumns(hour, minute, second, millis);
    var b := date + time;
    assert forall i, j | 0 <= i <= j <= 11 :: b[i..j] == date[i..j];
    assert forall i, j | 0 <= i <= j <= 13 :: b[11 + i..11 + j] == time[i..j];
  }

  lemma TimeColumns(hour: seq<byte>, minute: seq<byte>, second: seq<byte>, millis: seq<byte>)
    requires |hour| == |minute| == |second| == 2 && |millis| == 3
    ensures var t := hour + Ascii(":") + minute + Ascii(":") + second + Ascii(".") + millis + Ascii("Z");
            |t| == 13 && t[2] == 58 && t[5] == 58 && t[8] == 46 && t[12] == 90
            && t[0..2] == hour && t[3..5] == minute && t[6..8] == second && t[9..12] == millis
  {
  }

  lemma FormattedColumns(ms: int)
    requires 0 <= YearOf(ms) <= 9999
    ensures Columns(FormatRfc3339Millis(ms), CivilFromDays(ms / 1000 / 86400),
                    ms / 1000 % 86400, ms % 1000)
  {
    hide CivilFromDays, Stamp, PadNat;
    var d, t := CivilFromDays(ms / 1000 / 86400), ms / 1000 % 86400;
    CivilDateOfEveryDay(ms / 1000 / 86400);
    assert Pow10(4) == 10000 && Pow10(3) == 1000 && Pow10(2) == 100;
    PadNatReads(d.year, 4);
    PadNatReads(d.month, 2);
    PadNatReads(d.day, 2);
    PadNatReads(t / 3600, 2);
    PadNatReads(t % 3600 / 60, 2);
    PadNatReads(t % 60, 2);
    PadNatReads(ms % 1000, 3);
    StampColumns(PadNat(d.year, 4), PadNat(d.month, 2), PadNat(d.day, 2), PadNat(t / 3600, 2),
                 PadNat(t % 3600 / 60, 2), PadNat(t % 60, 2), PadNat(ms % 1000, 3));
  }

  /** A stamp in fixed columns is parsed to its fields. */
  lemma ParseColumns(b: seq<byte>, d: Date, t: nat, m: nat)
    requires Columns(b, d, t, m) && t < 86400 && m < 1000
    requires ValidDate(d) && 1 <= d.year <= 9999
    ensures ParseRfc3339Utc(b)
            == Some((DaysFromCivil(d.year, d.month, d.day) * 86400 + t) * NANOS_PER_SECOND + m * 1_000_000)
  {
    hide DaysFromCivil, PadNat, DaysInMonth, FoldDigits, Pow10, AllDigits, DecimalValue;
    MonthBounds(d);
    SmallPowers();
    PadNatReads(d.year, 4);
    PadNatReads(d.month, 2);
    PadNatReads(d.day, 2);
    PadNatReads(t / 3600, 2);
    PadNatReads(t % 3600 / 60, 2);
    PadNatReads(t % 60, 2);
    ColumnFraction(b, d, t, m);
    assert t / 3600 * 3600 + t % 3600 / 60 * 60 + t % 60 == t;
  }

  lemma ColumnFraction(b: seq<byte>, d: Date, t: nat, m: nat)
    requires Columns(b, d, t, m) && m < 1000
    ensures FractionOf(b) == Some(b[20..23]) && FractionNanoseconds(b[20..23]) == Some(m * 1_000_000)
  {
    SmallPowers();
    PadNatReads(m, 3);
    assert Pow10(6) == 1_000_000;
  }

  /** Parsing a formatted instant returns it, for every year of four digits. */
  lemma ParseFormatted(ms: int)
    requires 1 <= YearOf(ms) <= 9999
    ensures ParseRfc3339Utc(FormatRfc3339Millis(ms)) == Some(ms * NANOS_PER_MILLISECOND)
  {
    hide CivilFromDays, DaysFromCivil, SessionDaysFromCivil, FormatRfc3339Millis, ParseRfc3339Utc, Columns;
    var d, t, m := CivilFromDays(ms / 1000 / 86400), ms / 1000 % 86400, ms % 1000;
    FormattedColumns(ms);
    CivilDateOfEveryDay(ms / 1000 / 86400);
    ParseColumns(FormatRfc3339Millis(ms), d, t, m);
    DayCountsAgree(d.year, d.month, d.day);
    assert ms / 1000 / 86400 * 86400 + t == ms / 1000;
  }

  /** A field that begins below '0' is never a number. */
  lemma {:induction false} SignRejected(b: seq<byte>)
    requires b != [] && b[0] < 48
    ensures FoldDigits(b).None?
  {
    if |b| > 1 {
      SignRejected(b[..|b| - 1]);
    } else {
      assert b[..0] == [];
    }
  }

  /** Outside years 1 to 9999 the stamp is written but can never be read. */
  lemma FormattedOutOfRange(ms: int)
    requires !(1 <= YearOf(ms) <= 9999)
    ensures ParseRfc3339Utc(FormatRfc3339Millis(ms)).None?
  {
    hide CivilFromDays, DaysFromCivil, DaysInMonth, Stamp;
    var y, b := YearOf(ms), FormatRfc3339Millis(ms);
    var d, t := CivilFromDays(ms / 1000 / 86400), ms / 1000 % 86400;
    StampStart(PadInt(y, 4), PadInt(d.month, 2), PadInt(d.day, 2), PadInt(t / 3600, 2),
               PadInt(t % 3600 / 60, 2), PadInt(t % 60, 2), PadInt(ms % 1000, 3));
    if y >= 10000 {
      DigitsAreDigits(y);
      assert b[4] == PadInt(y, 4)[4] && PadInt(y, 4)[4] in Digits(y);
    } else if y == 0 {
      assert Pow10(4) == 10000;
      PadNatReads(0, 4);
      assert b[0..4] == PadNat(0, 4);
    } else {
      assert b[0] == 45;
      if |b| >= 20 {
        SignRejected(b[0..4]);
      }
    }
  }

  lemma StampStart(year: seq<byte>, month: seq<byte>, day: seq<byte>,
                   hour: seq<byte>, minute: seq<byte>, second: seq<byte>, millis: seq<byte>)
    ensures var b := Stamp(year, month, day, hour, minute, second, millis);
            |b| >= |year| + 7 && b[..|year|] == year
  {
  }

  /** First and last millisecond of the years 1 to 9999. */
  const FIRST_MS: int := -62_135_596_800_000
  const LAST_MS: int := 253_402_300_799_999

  predicate InYears1To9999(ms: int) {
    FIRST_MS <= ms <= LAST_MS
  }

  lemma FirstDays()
    ensures DayNumber(Date(1, 1, 1)) == -719162 && DayNumber(Date(10000, 1, 1)) == 2932897
  {
  }

  lemma YearsOfFourDigits(ms: int)
    ensures 1 <= YearOf(ms) <= 9999 <==> InYears1To9999(ms)
  {
    hide CivilFromDays, DayNumber, ValidDate;
    var days := ms / 1000 / 86400;
    CivilDateOfEveryDay(days);
    YearsInOrder(CivilFromDays(days), 1);
    YearsInOrder(CivilFromDays(days), 10000);
    FirstDays();
  }

  /** The exact range of the formatter's round trip. */
  lemma FormatRoundTrip(ms: int)
    ensures ParseRfc3339Utc(FormatRfc3339Millis(ms))
            == if InYears1To9999(ms) then Some(ms * NANOS_PER_MILLISECOND) else None
    ensures InYears1To9999(ms) <==> 1 <= YearOf(ms) <= 9999
  {
    hide *;
    YearsOfFourDigits(ms);
    if 1 <= YearOf(ms) <= 9999 {
      ParseFormatted(ms);
    } else {
      FormattedOutOfRange(ms);
    }
  }

  // ----- The two parsers against each other -----

  /** Every numeric field before the fraction consists of ASCII digits. */
  predicate FieldsAreDigits(b: seq<byte>)
    requires |b| >= 19
  {
    AllDigits(b[0..4]) && AllDigits(b[5..7]) && AllDigits(b[8..10])
    && AllDigits(b[11..13]) && AllDigits(b[14..16]) && AllDigits(b[17..19])
  }

  lemma {:induction false} DecimalSplits(b: seq<byte>, k: nat)
    requires k <= |b|
    ensures DecimalValue(b) == DecimalValue(b[..k]) * Pow10(|b| - k) + DecimalValue(b[k..])
  {
    if k == |b| {
      assert b[..k] == b && b[k..] == [];
    } else {
      var front, n := b[..|b| - 1], |b| - 1;
      DecimalSplits(front, k);
      assert front[..k] == b[..k] && front[k..] == b[k..][..n - k];
      assert b[k..][n - k] == b[n];
    }
  }

  /** Scaling to nine digits and dropping six keeps the first three. */
  lemma ShortFraction(head: int, n: nat)
    requires 1 <= n <= 3 && 0 <= head < Pow10(n)
    ensures var value := head * Pow10(9 - n);
            value / 1_000_000 == head * Pow10(3 - n) && 0 <= value < NANOS_PER_SECOND
  {
    assert Pow10(0) == 1 && Pow10(1) == 10 && Pow10(2) == 100 && Pow10(3) == 1000;
    assert Pow10(6) == 1_000_000 && Pow10(7) == 10_000_000 && Pow10(8) == 100_000_000;
    hide Pow10;
    if n == 1 {} else if n == 2 {} else {}
  }

  lemma LongFraction(head: int, tail: int, n: nat)
    requires 3 < n <= 9 && 0 <= head < 1000 && 0 <= tail < Pow10(n - 3)
    ensures var value := (head * Pow10(n - 3) + tail) * Pow10(9 - n);
            value / 1_000_000 == head && 0 <= value < NANOS_PER_SECOND
  {
    assert Pow10(0) == 1 && Pow10(1) == 10 && Pow10(2) == 100 && Pow10(3) == 1000 && Pow10(4) == 10_000;
    assert Pow10(5) == 100_000 && Pow10(6) == 1_000_000;
    hide Pow10;
    if n == 4 {} else if n == 5 {} else if n == 6 {} else if n == 7 {} else if n == 8 {} else {}
  }

  lemma FloorOfScaled(head: int, tail: int, n: nat)
    requires 1 <= n <= 9
    requires n <= 3 ==> tail == 0 && 0 <= head < Pow10(n)
    requires n > 3 ==> 0 <= head < 1000 && 0 <= tail < Pow10(n - 3)
    ensures var value := (if n <= 3 then head else head * Pow10(n - 3) + tail) * Pow10(9 - n);
            value / 1_000_000 == head * Pow10(if n <= 3 then 3 - n else 0)
            && 0 <= value < NANOS_PER_SECOND
  {
    assert Pow10(0) == 1;
    hide Pow10;
    if n <= 3 {
      ShortFraction(head, n);
    } else {
      LongFraction(head, tail, n);
    }
  }

  /** Milliseconds of a fraction are its nanoseconds, rounded down. */
  lemma FractionFloor(f: seq<byte>, rest: seq<byte>)
    requires 1 <= |f| <= 9 && AllDigits(f) && rest != [] && !IsDigit(rest[0])
    ensures FractionNanoseconds(f).Some?
    ensures FractionMillis(f + rest) == FractionNanoseconds(f).value / 1_000_000
    ensures FractionNanoseconds(f).value < NANOS_PER_SECOND
  {
    hide Pow10, IsDigit;
    var k := if |f| < 3 then |f| else 3;
    LeadingOfFraction(f, rest);
    FoldIsDecimal(f);
    DecimalSplits(f, k);
    FoldIsDecimal(f[..k]);
    FoldIsDecimal(f[k..]);
    var head, tail := DecimalValue(f[..k]), DecimalValue(f[k..]);
    if |f| <= 3 {
      assert f[..k] == f && f[k..] == [];
    }
    assert DecimalValue(f) == if |f| <= 3 then head else head * Pow10(|f| - 3) + tail;
    SmallPowers();
    FloorOfScaled(head, tail, |f|);
  }

  lemma SmallPowers()
    ensures Pow10(0) == 1 && Pow10(2) == 100 && Pow10(3) == 1000 && Pow10(4) == 10_000
  {
  }

  lemma LeadingOfFraction(f: seq<byte>, rest: seq<byte>)
    requires AllDigits(f) && rest != [] && !IsDigit(rest[0])
    ensures LeadingDigits(f + rest) == if |f| < 3 then |f| else 3
    ensures (f + rest)[..LeadingDigits(f + rest)] == f[..LeadingDigits(f + rest)]
  {
    assert forall i | 0 <= i < |f| :: (f + rest)[i] == f[i] && f[i] in f;
  }

  lemma FieldsAgree(b: seq<byte>, start: nat, end: nat)
    requires start < end <= |b| && end <= start + 4
    ensures FieldValue(b, start, end).Some? ==> ParseDigits(b[start..end]) == FieldValue(b, start, end)
                                                && FieldValue(b, start, end).value >= 0
  {
    if AllDigits(b[start..end]) {
      FoldIsDecimal(b[start..end]);
    }
  }

  /**
   * On every string the nanosecond parser accepts, the millisecond parser gives
   * its floor, except that it refuses exactly the fields with a byte above '9',
   * which the nanosecond parser takes for digits.
   */
  lemma MillisecondsAreFloor(b: seq<byte>)
    requires ParseRfc3339Utc(b).Some?
    ensures ParseIso8601(b) == if FieldsAreDigits(b)
                               then Some(ParseRfc3339Utc(b).value / NANOS_PER_MILLISECOND) else None
  {
    hide DaysFromCivil, SessionDaysFromCivil, DaysInMonth, FractionMillis, FractionNanoseconds;
    FieldsAgree(b, 0, 4);
    FieldsAgree(b, 5, 7);
    FieldsAgree(b, 8, 10);
    FieldsAgree(b, 11, 13);
    FieldsAgree(b, 14, 16);
    FieldsAgree(b, 17, 19);
    if FieldsAreDigits(b) {
      FractionsAgree(b);
      var year, month, day := DecimalValue(b[0..4]), DecimalValue(b[5..7]), DecimalValue(b[8..10]);
      DayCountsAgree(year, month, day);
      MonthLengths(year, month);
    }
  }

  lemma MonthLengths(year: int, month: int)
    ensures DaysInMonth(year, month) <= 31
  {
  }

  lemma FractionsAgree(b: seq<byte>)
    requires |b| >= 20 && FractionOf(b).Some? && FractionNanoseconds(FractionOf(b).value).Some?
    ensures (if b[19] == 46 then FractionMillis(b[20..]) else 0)
            == FractionNanoseconds(FractionOf(b).value).value / NANOS_PER_MILLISECOND
    ensures FractionNanoseconds(FractionOf(b).value).value < NANOS_PER_SECOND
  {
    if b[19] == 46 {
      var f := FractionOf(b).value;
      assert b[20..] == f + [b[|b| - 1]];
      FractionFloor(f, [b[|b| - 1]]);
    }
  }

  /** The difference is real: ':' counts as the digit ten. */
  lemma ColonCountsAsTen()
    ensures var odd := Ascii(ODD);
            ParseRfc3339Utc(odd) == Some(946_684_800 * NANOS_PER_SECOND) && ParseIso8601(odd).None?
  {
    var odd := Ascii(ODD);
    hide ParseDigits, ParseRfc3339Utc, ParseIso8601, ODD, Separators, Ascii, DaysFromCivil, ValidDate;
    OddColumns();
    OddFields(odd);
    YearTwoThousand();
    PlainStamp(odd, 2000, 1, 1);
    NonDigitYear(odd);
  }

  lemma OddFields(odd: seq<byte>)
    requires |odd| == 20 && odd[0..4] == [49, 57, 57, 58] && odd[5..7] == odd[8..10] == [48, 49]
    requires odd[11..13] == odd[14..16] == odd[17..19] == [48, 48]
    ensures ParseDigits(odd[0..4]) == Some(2000)
    ensures ParseDigits(odd[5..7]) == ParseDigits(odd[8..10]) == Some(1)
    ensures ParseDigits(odd[11..13]) == ParseDigits(odd[14..16]) == ParseDigits(odd[17..19]) == Some(0)
  {
    hide FoldDigits;
    FoldPair(48, 48);
    FoldPair(48, 49);
    FoldFour(49, 57, 57, 58);
  }

  lemma YearTwoThousand()
    ensures ValidDate(Date(2000, 1, 1)) && DaysFromCivil(2000, 1, 1) * 86400 == 946_684_800
  {
  }

  const ODD: string := "199:-01-01T00:00:00Z"

  lemma OddBytes()
    ensures var odd := Ascii(ODD);
            && |odd| == 20 && odd[0] == 49 && odd[1] == 57 && odd[2] == 57 && odd[3] == 58 && odd[4] == 45
            && odd[5] == 48 && odd[6] == 49 && odd[7] == 45 && odd[8] == 48 && odd[9] == 49 && odd[10] == 84
            && odd[11] == 48 && odd[12] == 48 && odd[13] == 58 && odd[14] == 48 && odd[15] == 48
            && odd[16] == 58 && odd[17] == 48 && odd[18] == 48 && odd[19] == 90
  {
  }

  lemma OddColumns()
    ensures var odd := Ascii(ODD);
            |odd| == 20 && Separators(odd) && odd[19] == 90 && odd[3] == 58
            && odd[0..4] == [49, 57, 57, 58] && odd[5..7] == [48, 49] && odd[8..10] == [48, 49]
            && odd[11..13] == [48, 48] && odd[14..16] == [48, 48] && odd[17..19] == [48, 48]
  {
    OddBytes();
    hide ODD, Ascii;
  }

  /** A stamp at midnight without a fraction. */
  lemma PlainStamp(b: seq<byte>, year: nat, month: nat, day: nat)
    requires |b| == 20 && Separators(b) && b[19] == 90
    requires ParseDigits(b[0..4]) == Some(year) && ParseDigits(b[5..7]) == Some(month)
    requires ParseDigits(b[8..10]) == Some(day) && ParseDigits(b[11..13]) == Some(0)
    requires ParseDigits(b[14..16]) == Some(0) && ParseDigits(b[17..19]) == Some(0)
    requires year > 0 && ValidDate(Date(year, month, day))
    ensures ParseRfc3339Utc(b) == Some(DaysFromCivil(year, month, day) * 86400 * NANOS_PER_SECOND)
  {
    hide DaysFromCivil, FoldDigits;
  }

  lemma NonDigitYear(b: seq<byte>)
    requires |b| >= 19 && !IsDigit(b[3])
    ensures ParseIso8601(b).None?
  {
    assert b[0..4][3] in b[0..4];
  }

  lemma FoldPair(a: byte, b: byte)
    requires a >= 48 && b >= 48
    ensures FoldDigits([a, b]) == Some((a as int - 48) * 10 + (b as int - 48))
  {
    assert [a][..0] == [] && [a, b][..1] == [a];
    assert FoldDigits([a]) == Some(a as int - 48);
  }

  lemma FoldFour(a: byte, b: byte, c: byte, d: byte)
    requires a >= 48 && b >= 48 && c >= 48 && d >= 48
    ensures FoldDigits([a, b, c, d]) == Some((((a as int - 48) * 10 + (b as int - 48)) * 10
                                             + (c as int - 48)) * 10 + (d as int - 48))
  {
    FoldPair(a, b);
    assert [a, b, c][..2] == [a, b] && [a, b, c, d][..3] == [a, b, c];
  }

  // ----- The refresh decision -----

  datatype JwtExpiration = Signed(seconds: int) | Unsigned(amount: nat) {
    predicate IsAtOrBefore(cutoff: int) {
      match this
      case Signed(s) => s <= cutoff
      case Unsigned(u) => cutoff >= 0 && u <= cutoff
    }
  }

  /** What the decision reads from a decoded credential file. */
  datatype Credential = Credential(
    usableToken: bool,                   // an access token is present, non-blank, without NUL, CR or LF
    expiration: Option<JwtExpiration>,   // the "exp" of its JWT payload, when that decodes
    lastRefresh: Option<seq<byte>>)

  function NeedsRefresh(c: Credential, nowMs: int): Result<bool, ()> {
    if !c.usableToken then Err(())
    else if c.expiration.Some? then Ok(c.expiration.value.IsAtOrBefore(nowMs / 1000 + 300))
    else if c.lastRefresh.None? then Ok(false)
    else match ParseRfc3339Utc(c.lastRefresh.value)
      case None => Ok(false)
      case Some(ns) => Ok(ns <= (nowMs - EIGHT_DAYS_MS) * NANOS_PER_MILLISECOND)
  }

  /**
   * A token that tells when it expires is due from five minutes before that second
   * on; otherwise eight days after the last refresh, if that is on record.
   */
  lemma ExpiryDecides(c: Credential, now: int)
    ensures !c.usableToken ==> NeedsRefresh(c, now) == Err(())
    ensures c.usableToken && c.expiration.Some? ==>
              var second := match c.expiration.value case Signed(s) => s case Unsigned(u) => u;
              NeedsRefresh(c, now) == Ok(now >= (second - 300) * 1000)
    ensures c.usableToken && c.expiration.None? ==>
              var last := if c.lastRefresh.None? then None else ParseRfc3339Utc(c.lastRefresh.value);
              NeedsRefresh(c, now)
              == Ok(last.Some? && last.value + EIGHT_DAYS_MS * NANOS_PER_MILLISECOND <= now * NANOS_PER_MILLISECOND)
  {
    hide ParseRfc3339Utc;
    FloorAtLeast(now, if c.expiration.None? then 0
                      else (match c.expiration.value case Signed(s) => s case Unsigned(u) => u) - 300);
  }

  lemma FloorAtLeast(ms: int, second: int)
    ensures second <= ms / 1000 <==> second * 1000 <= ms
  {
  }

  /** The credential a refresh at `nowMs` writes back. */
  function Refreshed(c: Credential, nowMs: int): Credential {
    c.(lastRefresh := Some(FormatRfc3339Millis(nowMs)))
  }

  /**
   * Without a usable expiry, a credential refreshed at `t` is due exactly from
   * eight days later on; a stamp outside the years 1 to 9999 never falls due.
   */
  lemma DueAfterEightDays(c: Credential, t: int, now: int)
    requires c.usableToken && c.expiration.None?
    ensures NeedsRefresh(Refreshed(c, t), now) == Ok(InYears1To9999(t) && now >= t + EIGHT_DAYS_MS)
  {
    hide YearOf, FormatRfc3339Millis, ParseRfc3339Utc, InYears1To9999;
    FormatRoundTrip(t);
  }
}
