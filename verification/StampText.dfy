// The time stamps that the two parsers accept, described as text: which ones
// are read, as what instant, and that no others are.

module StampText {
  import opened Basics
  import opened Calendar
  import opened Timestamps

  // ----- Fields of fixed width -----

  /** The last `width` decimal digits of a number. */
  function Fixed(n: nat, width: nat): (b: seq<byte>)
    ensures |b| == width
  {
    if width == 0 then [] else Fixed(n / 10, width - 1) + [(48 + n % 10) as byte]
  }

  lemma {:induction false} FixedReads(n: nat, width: nat)
    requires n < Pow10(width)
    ensures AllDigits(Fixed(n, width)) && DecimalValue(Fixed(n, width)) == n
  {
    if width > 0 {
      var front := Fixed(n / 10, width - 1);
      FixedReads(n / 10, width - 1);
      assert Fixed(n, width)[..width - 1] == front;
    }
  }

  lemma LastDigit(n: nat, last: byte)
    requires IsDigit(last)
    ensures var m := n * 10 + (last as int - 48);
            m / 10 == n && 48 + m % 10 == last as int
  {
  }

  lemma {:induction false} FixedOf(b: seq<byte>)
    requires AllDigits(b)
    ensures 0 <= DecimalValue(b) < Pow10(|b|) && Fixed(DecimalValue(b), |b|) == b
  {
    if b != [] {
      var front, last := b[..|b| - 1], b[|b| - 1];
      assert last in b && forall x <- front :: x in b;
      FixedOf(front);
      LastDigit(DecimalValue(front), last);
      assert b == front + [last];
      hide IsDigit, AllDigits;
      assert DecimalValue(b) == DecimalValue(front) * 10 + (last as int - 48);
    }
  }

  // ----- Nineteen columns -----

  datatype Fields = Fields(year: nat, month: nat, day: nat, hour: nat, minute: nat, second: nat) {
    /** What the loaders accept: any day up to 31, and a leap second. */
    predicate Loose() {
      year <= 9999 && 1 <= month <= 12 && 1 <= day <= 31 && hour <= 23 && minute <= 59 && second <= 60
    }

    /** What credentials may carry: a date of the calendar from year 1 on. */
    predicate Strict() {
      1 <= year <= 9999 && ValidDate(Date(year, month, day)) && hour <= 23 && minute <= 59 && second <= 59
    }

    function Seconds(): int {
      DayNumber(Date(year, month, day)) * 86400 + hour * 3600 + minute * 60 + second
    }
  }

  function DateText(f: Fields): (b: seq<byte>)
    ensures |b| == 11
  {
    Fixed(f.year, 4) + Ascii("-") + Fixed(f.month, 2) + Ascii("-") + Fixed(f.day, 2) + Ascii("T")
  }

  function TimeText(f: Fields): (b: seq<byte>)
    ensures |b| == 8
  {
    Fixed(f.hour, 2) + Ascii(":") + Fixed(f.minute, 2) + Ascii(":") + Fixed(f.second, 2)
  }

  function Head(f: Fields): (b: seq<byte>)
    ensures |b| == 19
  {
    DateText(f) + TimeText(f)
  }

  lemma DateColumns(f: Fields)
    ensures var b := DateText(f);
            && b[4] == 45 && b[7] == 45 && b[10] == 84
            && b[0..4] == Fixed(f.year, 4) && b[5..7] == Fixed(f.month, 2) && b[8..10] == Fixed(f.day, 2)
  {
    hide Fixed;
  }

  lemma TimeColumnsOf(f: Fields)
    ensures var b := TimeText(f);
            && b[2] == 58 && b[5] == 58
            && b[0..2] == Fixed(f.hour, 2) && b[3..5] == Fixed(f.minute, 2) && b[6..8] == Fixed(f.second, 2)
  {
    hide Fixed;
  }

  lemma SliceInFront(a: seq<byte>, b: seq<byte>, i: nat, j: nat)
    requires i <= j <= |a|
    ensures (a + b)[i..j] == a[i..j]
  {
  }

  lemma SliceBehind(a: seq<byte>, b: seq<byte>, i: nat, j: nat)
    requires i <= j <= |b|
    ensures (a + b)[|a| + i..|a| + j] == b[i..j]
  {
  }

  lemma HeadColumns(f: Fields, rest: seq<byte>)
    ensures var b := Head(f) + rest;
            && |b| == 19 + |rest| && Separators(b) && b[19..] == rest
            && b[0..4] == Fixed(f.year, 4) && b[5..7] == Fixed(f.month, 2) && b[8..10] == Fixed(f.day, 2)
            && b[11..13] == Fixed(f.hour, 2) && b[14..16] == Fixed(f.minute, 2) && b[17..19] == Fixed(f.second, 2)
  {
    hide Fixed, DateText, TimeText;
    DateColumns(f);
    TimeColumnsOf(f);
    var d, later := DateText(f), TimeText(f) + rest;
    assert Head(f) + rest == d + later;
    SliceInFront(d, later, 0, 4);
    SliceInFront(d, later, 5, 7);
    SliceInFront(d, later, 8, 10);
    SliceBehind(d, later, 0, 2);
    SliceBehind(d, later, 3, 5);
    SliceBehind(d, later, 6, 8);
    SliceInFront(TimeText(f), rest, 0, 2);
    SliceInFront(TimeText(f), rest, 3, 5);
    SliceInFront(TimeText(f), rest, 6, 8);
    assert (d + later)[13] == TimeText(f)[2] && (d + later)[16] == TimeText(f)[5];
  }

  function FieldsOf(b: seq<byte>): Fields
    requires |b| >= 19 && FieldsAreDigits(b)
  {
    FixedOf(b[0..4]); FixedOf(b[5..7]); FixedOf(b[8..10]);
    FixedOf(b[11..13]); FixedOf(b[14..16]); FixedOf(b[17..19]);
    Fields(DecimalValue(b[0..4]), DecimalValue(b[5..7]), DecimalValue(b[8..10]),
           DecimalValue(b[11..13]), DecimalValue(b[14..16]), DecimalValue(b[17..19]))
  }

  lemma DateOfColumns(b: seq<byte>, f: Fields)
    requires |b| >= 11 && b[4] == 45 && b[7] == 45 && b[10] == 84
    requires b[0..4] == Fixed(f.year, 4) && b[5..7] == Fixed(f.month, 2) && b[8..10] == Fixed(f.day, 2)
    ensures b[..11] == DateText(f)
  {
    hide Fixed;
    assert Ascii("-") == [45] && Ascii("T") == [84];
    assert b[..11] == b[0..4] + [b[4]] + b[5..7] + [b[7]] + b[8..10] + [b[10]];
  }

  lemma TimeOfColumns(b: seq<byte>, f: Fields)
    requires |b| >= 8 && b[2] == 58 && b[5] == 58
    requires b[0..2] == Fixed(f.hour, 2) && b[3..5] == Fixed(f.minute, 2) && b[6..8] == Fixed(f.second, 2)
    ensures b[..8] == TimeText(f)
  {
    hide Fixed;
    assert Ascii(":") == [58];
    assert b[..8] == b[0..2] + [b[2]] + b[3..5] + [b[5]] + b[6..8];
  }

  lemma HeadOf(b: seq<byte>)
    requires Separators(b) && FieldsAreDigits(b)
    ensures var f := FieldsOf(b);
            b == Head(f) + b[19..] && f.year <= 9999
  {
    FixedOf(b[0..4]);
    FixedOf(b[5..7]);
    FixedOf(b[8..10]);
    FixedOf(b[11..13]);
    FixedOf(b[14..16]);
    FixedOf(b[17..19]);
    SmallPowers();
    hide Fixed, DecimalValue, DateText, TimeText, Pow10;
    var f, t := FieldsOf(b), b[11..];
    DateOfColumns(b, f);
    assert t[0..2] == b[11..13] && t[3..5] == b[14..16] && t[6..8] == b[17..19];
    TimeOfColumns(t, f);
    assert b == b[..11] + t[..8] + b[19..];
  }

  // ----- Stamps of credentials -----

  /** A stamp in Coordinated Universal Time, with up to nine digits of a fraction. */
  function StampOf(f: Fields, fraction: seq<byte>): seq<byte> {
    Head(f) + if fraction == [] then Ascii("Z") else Ascii(".") + fraction + Ascii("Z")
  }

  function Nanoseconds(fraction: seq<byte>): int
    requires |fraction| <= 9
  {
    DecimalValue(fraction) * Pow10(9 - |fraction|)
  }

  lemma FieldReads(n: nat, width: nat)
    requires n < Pow10(width) && 1 <= width <= 4
    ensures ParseDigits(Fixed(n, width)) == Some(n) && FieldValue(Fixed(n, width), 0, width) == Some(n)
  {
    FixedReads(n, width);
    assert Fixed(n, width)[0..width] == Fixed(n, width);
    FoldIsDecimal(Fixed(n, width));
  }

  lemma AllFieldsRead(f: Fields, rest: seq<byte>)
    requires f.year <= 9999 && f.month < 100 && f.day < 100 && f.hour < 100 && f.minute < 100 && f.second < 100
    ensures var b := Head(f) + rest;
            && |b| >= 19 && Separators(b) && FieldsAreDigits(b)
            && ParseDigits(b[0..4]) == Some(f.year) && FieldValue(b, 0, 4) == Some(f.year)
            && ParseDigits(b[5..7]) == Some(f.month) && FieldValue(b, 5, 7) == Some(f.month)
            && ParseDigits(b[8..10]) == Some(f.day) && FieldValue(b, 8, 10) == Some(f.day)
            && ParseDigits(b[11..13]) == Some(f.hour) && FieldValue(b, 11, 13) == Some(f.hour)
            && ParseDigits(b[14..16]) == Some(f.minute) && FieldValue(b, 14, 16) == Some(f.minute)
            && ParseDigits(b[17..19]) == Some(f.second) && FieldValue(b, 17, 19) == Some(f.second)
  {
    hide Fixed, DecimalValue, ParseDigits, Head, Pow10, AllDigits;
    SmallPowers();
    HeadColumns(f, rest);
    FieldReads(f.year, 4);
    FieldReads(f.month, 2);
    FieldReads(f.day, 2);
    FieldReads(f.hour, 2);
    FieldReads(f.minute, 2);
    FieldReads(f.second, 2);
    FixedDigits(f.year, 4);
    FixedDigits(f.month, 2);
    FixedDigits(f.day, 2);
    FixedDigits(f.hour, 2);
    FixedDigits(f.minute, 2);
    FixedDigits(f.second, 2);
    assert forall n: nat :: Fixed(n, 2)[0..2] == Fixed(n, 2) && Fixed(n, 4)[0..4] == Fixed(n, 4);
  }

  lemma FixedDigits(n: nat, width: nat)
    requires n < Pow10(width)
    ensures AllDigits(Fixed(n, width))
  {
    FixedReads(n, width);
  }

  lemma FractionColumns(f: Fields, fraction: seq<byte>)
    requires |fraction| <= 9 && AllDigits(fraction)
    ensures var b := StampOf(f, fraction);
            |b| >= 20 && FractionOf(b) == Some(fraction) && FractionNanoseconds(fraction) == Some(Nanoseconds(fraction))
  {
    hide Head, DecimalValue;
    var b := StampOf(f, fraction);
    if fraction != [] {
      assert b[20..|b| - 1] == fraction;
      FoldIsDecimal(fraction);
    } else {
      NoFraction();
    }
  }

  lemma NoFraction()
    ensures DecimalValue([]) == 0
  {
  }

  /** Every stamp of the calendar from year 1 to 9999 is read as its instant. */
  lemma StampIsRead(f: Fields, fraction: seq<byte>)
    requires f.Strict() && |fraction| <= 9 && AllDigits(fraction)
    ensures ParseRfc3339Utc(StampOf(f, fraction)) == Some(f.Seconds() * NANOS_PER_SECOND + Nanoseconds(fraction))
  {
    MonthBounds(Date(f.year, f.month, f.day));
    hide Head, DecimalValue, FractionOf, FractionNanoseconds, Nanoseconds, ParseDigits, FieldsAreDigits, FieldValue;
    hide Separators, DaysInMonth, DaysFromCivil, SessionDaysFromCivil;
    AllFieldsRead(f, StampOf(f, fraction)[19..]);
    assert StampOf(f, fraction) == Head(f) + StampOf(f, fraction)[19..];
    FractionColumns(f, fraction);
    DayCountsAgree(f.year, f.month, f.day);
  }

  /** No other text with ASCII digits is read. */
  lemma OnlyStampsAreRead(b: seq<byte>)
    requires ParseRfc3339Utc(b).Some? && FieldsAreDigits(b)
    ensures exists f: Fields, fraction: seq<byte> | f.Strict() && |fraction| <= 9 && AllDigits(fraction) ::
              b == StampOf(f, fraction)
  {
    hide Head, DecimalValue, DaysInMonth, DaysFromCivil, FoldDigits;
    HeadOf(b);
    FieldsAgree(b, 0, 4);
    FieldsAgree(b, 5, 7);
    FieldsAgree(b, 8, 10);
    FieldsAgree(b, 11, 13);
    FieldsAgree(b, 14, 16);
    FieldsAgree(b, 17, 19);
    var f, fraction := FieldsOf(b), FractionOf(b).value;
    assert f.Strict();
    assert Ascii("Z") == [90] && Ascii(".") == [46];
    if fraction != [] {
      assert b[19..] == [b[19]] + fraction + [b[|b| - 1]];
    }
    assert b == StampOf(f, fraction);
  }

  // ----- Stamps of sessions -----

  /** The first three digits of a fraction that stands behind a point, filled up with zeros. */
  ghost predicate MillisOf(rest: seq<byte>, millis: int) {
    if rest == [] || rest[0] != 46 then millis == 0
    else exists digits: seq<byte>, tail: seq<byte> ::
           && rest == [46 as byte] + digits + tail && AllDigits(digits) && (tail == [] || !IsDigit(tail[0]))
           && millis == DecimalValue((digits + [48, 48, 48])[..3])
  }

  /** Whatever follows the nineteenth column, a stamp of a session is read as its instant. */
  lemma LooseStampIsRead(f: Fields, rest: seq<byte>, millis: int)
    requires f.Loose() && MillisOf(rest, millis)
    ensures ParseIso8601(Head(f) + rest) == Some(f.Seconds() * 1000 + millis)
  {
    hide Head, DecimalValue, FractionMillis, FieldsAreDigits, FieldValue, ParseDigits, SessionDaysFromCivil;
    AllFieldsRead(f, rest);
    var b := Head(f) + rest;
    assert b[19..] == rest;
    if rest != [] && rest[0] == 46 {
      var digits: seq<byte>, tail: seq<byte> :|
        rest == [46 as byte] + digits + tail && AllDigits(digits) && (tail == [] || !IsDigit(tail[0]))
        && millis == DecimalValue((digits + [48, 48, 48])[..3]);
      assert b[20..] == digits + tail;
      ThreeDigits(digits, tail);
    }
  }

  lemma ThreeDigits(digits: seq<byte>, tail: seq<byte>)
    requires AllDigits(digits) && (tail == [] || !IsDigit(tail[0]))
    ensures FractionMillis(digits + tail) == DecimalValue((digits + [48, 48, 48])[..3])
  {
    var b := digits + tail;
    assert forall i | 0 <= i < |digits| :: b[i] == digits[i] && digits[i] in digits;
    SmallPowers();
    assert Pow10(1) == 10;
    var n := LeadingDigits(b);
    assert n == if |digits| < 3 then |digits| else 3;
    assert b[..n] == digits[..n];
    FilledUp(digits[..n]);
    assert (digits + [48, 48, 48])[..3] == digits[..n] + [48 as byte, 48, 48][..3 - n];
  }

  lemma FilledUp(front: seq<byte>)
    requires |front| <= 3
    ensures DecimalValue(front + [48 as byte, 48, 48][..3 - |front|]) == DecimalValue(front) * Pow10(3 - |front|)
  {
    hide DecimalValue, Pow10;
    var zeros := [48 as byte, 48, 48][..3 - |front|];
    DecimalSplits(front + zeros, |front|);
    assert (front + zeros)[..|front|] == front && (front + zeros)[|front|..] == zeros;
    ZerosValue(zeros);
  }

  lemma {:induction false} ZerosValue(zeros: seq<byte>)
    requires forall i | 0 <= i < |zeros| :: zeros[i] == 48
    ensures DecimalValue(zeros) == 0
  {
    if zeros != [] {
      ZerosValue(zeros[..|zeros| - 1]);
    }
  }

  /** No other text is read as a stamp of a session. */
  lemma OnlyLooseStampsAreRead(b: seq<byte>)
    requires ParseIso8601(b).Some?
    ensures exists f: Fields, rest: seq<byte> | f.Loose() :: b == Head(f) + rest
  {
    hide Head, DecimalValue, FractionMillis, SessionDaysFromCivil;
    HeadOf(b);
    assert FieldsOf(b).Loose();
  }
}
