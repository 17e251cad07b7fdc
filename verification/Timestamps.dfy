/** The timestamps the reversal log accepts are exactly the texts of instants, as `toISOString` prints them. */
module Timestamps {
  import opened Prelude
  import opened ReversalEvents
  import I = Iso8583

  /** A point in time, in UTC and the proleptic Gregorian calendar. */
  datatype Instant = Instant(year: int, month: nat, day: nat, hour: nat, minute: nat, second: nat, milli: nat)

  predicate LeapYear(year: int) {
    year % 400 == 0 || (year % 4 == 0 && year % 100 != 0)
  }

  function MonthDays(year: int, month: nat): nat
    requires 1 <= month <= 12
  {
    [31, if LeapYear(year) then 29 else 28, 31, 30, 31, 30, 31, 31, 30, 31, 30, 31][month - 1]
  }

  predicate OnCalendar(t: Instant) {
    && 1 <= t.month <= 12 && 1 <= t.day <= MonthDays(t.year, t.month)
    && t.hour < 24 && t.minute < 60 && t.second < 60 && t.milli < 1000
  }

  /** From 20 April of the year -271821 to the first instant of 13 September 275760. */
  predicate InRange(t: Instant) {
    && -271821 <= t.year <= 275760
    && (t.year == -271821 ==> t.month > 4 || (t.month == 4 && t.day >= 20))
    && (t.year == 275760 ==> t.month < 9 || (t.month == 9 && t.day < 13) || LastInstant(t))
  }

  predicate LastInstant(t: Instant) {
    t.month == 9 && t.day == 13 && t.hour == 0 && t.minute == 0 && t.second == 0 && t.milli == 0
  }

  function Pad(n: nat, width: nat): string {
    if width == 0 then "" else Pad(n / 10, width - 1) + ["0123456789"[n % 10]]
  }

  function YearText(year: int): string {
    if 0 <= year <= 9999 then Pad(year, 4)
    else if year < 0 then "-" + Pad(-year, 6)
    else "+" + Pad(year, 6)
  }

  function RestText(t: Instant): string {
    "-" + Pad(t.month, 2) + "-" + Pad(t.day, 2) + "T" + Pad(t.hour, 2) + ":" + Pad(t.minute, 2) + ":" + Pad(t.second, 2)
      + "." + Pad(t.milli, 3) + "Z"
  }

  function IsoText(t: Instant): string { YearText(t.year) + RestText(t) }

  // ----- digits -----

  function Number(s: string): nat
    requires I.AllDigits(s)
  {
    if s == "" then 0 else 10 * Number(s[..|s| - 1]) + I.DigitValue(s[|s| - 1])
  }

  lemma DigitText(n: nat)
    requires n < 10
    ensures I.IsDigit("0123456789"[n]) && I.DigitValue("0123456789"[n]) == n
  {}

  function Power(width: nat): nat { if width == 0 then 1 else 10 * Power(width - 1) }

  lemma {:induction false} PadReads(n: nat, width: nat)
    requires n < Power(width)
    ensures |Pad(n, width)| == width && I.AllDigits(Pad(n, width)) && Number(Pad(n, width)) == n
  {
    if width > 0 {
      PadReads(n / 10, width - 1);
      DigitText(n % 10);
      assert Pad(n, width)[..width - 1] == Pad(n / 10, width - 1);
    }
  }

  lemma {:induction false} ReadsPad(s: string)
    requires I.AllDigits(s)
    ensures Number(s) < Power(|s|) && Pad(Number(s), |s|) == s
  {
    if s != "" {
      var front, last := s[..|s| - 1], s[|s| - 1];
      ReadsPad(front);
      DigitText(I.DigitValue(last));
      assert "0123456789"[I.DigitValue(last)] == last;
      assert Number(s) / 10 == Number(front) && Number(s) % 10 == I.DigitValue(last);
    }
  }

  lemma TwoReads(s: string, i: nat)
    requires DigitsAt(s, i, 2)
    ensures I.AllDigits(s[i..i + 2]) && Number(s[i..i + 2]) == TwoDigits(s, i)
  {
    var t := s[i..i + 2];
    assert t[..1][..0] == "" && t[..1] == [t[0]] && t[0] == s[i] && t[1] == s[i + 1];
    assert Number(t[..1]) == 10 * Number(t[..1][..0]) + I.DigitValue(t[0]);
  }

  // ----- the parts of a timestamp -----

  lemma DaysExact(year: int, month: nat)
    requires 1 <= month <= 12
    ensures DaysIn(year, month) == MonthDays(year, month)
  {}

  /** The instant that is written from `o` on, in the given year. */
  function InstantAt(s: string, o: nat, year: int): Instant
    requires CalendarAt(s, o, year)
  {
    assert I.AllDigits(s[o + 16..o + 19]);
    Instant(year, TwoDigits(s, o + 1), TwoDigits(s, o + 4), TwoDigits(s, o + 7), TwoDigits(s, o + 10), TwoDigits(s, o + 13),
      Number(s[o + 16..o + 19]))
  }

  lemma PadTwo(s: string, i: nat)
    requires DigitsAt(s, i, 2)
    ensures Pad(TwoDigits(s, i), 2) == s[i..i + 2]
  {
    TwoReads(s, i);
    ReadsPad(s[i..i + 2]);
  }

  lemma CalendarReads(s: string, o: nat, year: int)
    requires CalendarAt(s, o, year)
    ensures OnCalendar(InstantAt(s, o, year)) && RestText(InstantAt(s, o, year)) == s[o..]
  {
    var t := InstantAt(s, o, year);
    DaysExact(year, t.month);
    PadTwo(s, o + 1);
    PadTwo(s, o + 4);
    PadTwo(s, o + 7);
    PadTwo(s, o + 10);
    PadTwo(s, o + 13);
    ReadsPad(s[o + 16..o + 19]);
    assert Power(3) == 1000;
    Parts(s, o);
  }

  /** A text cut at the places where a timestamp has its separators. */
  lemma Parts(s: string, o: nat)
    requires |s| == o + 20
    ensures s[o..] == [s[o]] + s[o + 1..o + 3] + [s[o + 3]] + s[o + 4..o + 6] + [s[o + 6]] + s[o + 7..o + 9] + [s[o + 9]]
      + s[o + 10..o + 12] + [s[o + 12]] + s[o + 13..o + 15] + [s[o + 15]] + s[o + 16..o + 19] + [s[o + 19]]
  {}

  lemma TwoPadded(s: string, i: nat, n: nat)
    requires i + 2 <= |s| && n < 100 && s[i..i + 2] == Pad(n, 2)
    ensures DigitsAt(s, i, 2) && TwoDigits(s, i) == n
  {
    assert Power(2) == 100;
    PadReads(n, 2);
    assert s[i] == s[i..i + 2][0] && s[i + 1] == s[i..i + 2][1];
    forall k | i <= k < i + 2 ensures I.IsDigit(s[k]) { assert s[k] == s[i..i + 2][k - i]; }
    TwoReads(s, i);
  }

  /** Where each part lies when parts of these lengths are put together. */
  lemma Places(month: string, day: string, hour: string, minute: string, second: string, milli: string, r: string)
    requires |month| == |day| == |hour| == |minute| == |second| == 2 && |milli| == 3
    requires r == "-" + month + "-" + day + "T" + hour + ":" + minute + ":" + second + "." + milli + "Z"
    ensures |r| == 20
    ensures r[0] == '-' && r[3] == '-' && r[6] == 'T' && r[9] == ':' && r[12] == ':' && r[15] == '.' && r[19] == 'Z'
    ensures r[1..3] == month && r[4..6] == day && r[7..9] == hour
    ensures r[10..12] == minute && r[13..15] == second && r[16..19] == milli
  {
    var a := "-" + month;
    var b := a + "-" + day;
    var c := b + "T" + hour;
    var d := c + ":" + minute;
    var e := d + ":" + second;
    var f := e + "." + milli;
    assert r == f + "Z" && |f| == 19;
    assert f[..15] == e && f[15] == '.' && f[16..19] == milli;
    assert e[..12] == d && e[12] == ':' && e[13..15] == second;
    assert d[..9] == c && d[9] == ':' && d[10..12] == minute;
    assert c[..6] == b && c[6] == 'T' && c[7..9] == hour;
    assert b[..3] == a && b[3] == '-' && b[4..6] == day;
    assert a[0] == '-' && a[1..3] == month;
  }

  lemma Shifted(s: string, o: nat, r: string)
    requires o <= |s| && s[o..] == r
    ensures forall i :: 0 <= i < |r| ==> s[o + i] == r[i]
    ensures forall i, j :: 0 <= i <= j <= |r| ==> s[o + i..o + j] == r[i..j]
  {
    forall i | 0 <= i < |r| ensures s[o + i] == r[i] { assert s[o..][i] == s[o + i]; }
  }

  lemma RestParts(t: Instant, s: string, o: nat)
    requires OnCalendar(t) && o <= |s| && s[o..] == RestText(t)
    ensures |s| == o + 20
    ensures s[o] == '-' && s[o + 3] == '-' && s[o + 6] == 'T' && s[o + 9] == ':' && s[o + 12] == ':' && s[o + 15] == '.' && s[o + 19] == 'Z'
    ensures s[o + 1..o + 3] == Pad(t.month, 2) && s[o + 4..o + 6] == Pad(t.day, 2) && s[o + 7..o + 9] == Pad(t.hour, 2)
    ensures s[o + 10..o + 12] == Pad(t.minute, 2) && s[o + 13..o + 15] == Pad(t.second, 2) && s[o + 16..o + 19] == Pad(t.milli, 3)
  {
    assert Power(2) == 100 && Power(3) == 1000;
    PadReads(t.month, 2);
    PadReads(t.day, 2);
    PadReads(t.hour, 2);
    PadReads(t.minute, 2);
    PadReads(t.second, 2);
    PadReads(t.milli, 3);
    Places(Pad(t.month, 2), Pad(t.day, 2), Pad(t.hour, 2), Pad(t.minute, 2), Pad(t.second, 2), Pad(t.milli, 3), RestText(t));
    Shifted(s, o, RestText(t));
  }

  lemma CalendarWritten(t: Instant, s: string, o: nat)
    requires OnCalendar(t) && o <= |s| && s[o..] == RestText(t)
    ensures CalendarAt(s, o, t.year) && InstantAt(s, o, t.year) == t
  {
    RestParts(t, s, o);
    TwoPadded(s, o + 1, t.month);
    TwoPadded(s, o + 4, t.day);
    TwoPadded(s, o + 7, t.hour);
    TwoPadded(s, o + 10, t.minute);
    TwoPadded(s, o + 13, t.second);
    assert Power(3) == 1000;
    PadReads(t.milli, 3);
    forall k | o + 16 <= k < o + 19 ensures I.IsDigit(s[k]) { assert s[k] == s[o + 16..o + 19][k - (o + 16)]; }
    DaysExact(t.year, t.month);
  }

  // ----- the year -----

  lemma {:induction false} PairReads(s: string)
    requires |s| >= 2 && I.AllDigits(s)
    ensures I.AllDigits(s[..|s| - 2]) && Number(s) == 100 * Number(s[..|s| - 2]) + TwoDigits(s, |s| - 2)
  {
    var front := s[..|s| - 1];
    assert front[..|front| - 1] == s[..|s| - 2] && front[|front| - 1] == s[|s| - 2];
  }

  lemma FourReads(s: string)
    requires |s| == 4 && I.AllDigits(s)
    ensures Number(s) == 100 * TwoDigits(s, 0) + TwoDigits(s, 2) && Number(s) <= 9999
  {
    PairReads(s);
    PairReads(s[..2]);
    assert s[..2][..0] == "";
    ReadsPad(s);
    assert Power(4) == 10000;
  }

  lemma SixReads(s: string)
    requires |s| == 6 && I.AllDigits(s)
    ensures Number(s) == 10000 * TwoDigits(s, 0) + 100 * TwoDigits(s, 2) + TwoDigits(s, 4)
  {
    PairReads(s);
    FourReads(s[..4]);
  }

  function Clock(hour: string, minute: string, second: string, milli: string): string {
    "T" + hour + ":" + minute + ":" + second + "." + milli + "Z"
  }

  lemma ClockParts(hour: string, minute: string, second: string, milli: string)
    requires |hour| == |minute| == |second| == 2 && |milli| == 3
    ensures var c := Clock(hour, minute, second, milli); c[1..3] == hour && c[4..6] == minute && c[7..9] == second && c[10..13] == milli
  {}

  lemma FrontClock(month: string, day: string, hour: string, minute: string, second: string, milli: string)
    requires |month| == |day| == 2
    ensures var r := "-" + month + "-" + day + "T" + hour + ":" + minute + ":" + second + "." + milli + "Z";
      |r| >= 6 && r[6..] == Clock(hour, minute, second, milli)
  {
    var front := "-" + month + "-" + day;
    assert "-" + month + "-" + day + "T" + hour + ":" + minute + ":" + second + "." + milli + "Z"
      == front + Clock(hour, minute, second, milli);
  }

  lemma ClockOf(t: Instant, s: string)
    requires OnCalendar(t) && |s| == 27 && s[7..] == RestText(t)
    ensures s[13..] == Clock(Pad(t.hour, 2), Pad(t.minute, 2), Pad(t.second, 2), Pad(t.milli, 3))
  {
    assert Power(2) == 100;
    PadReads(t.month, 2);
    PadReads(t.day, 2);
    FrontClock(Pad(t.month, 2), Pad(t.day, 2), Pad(t.hour, 2), Pad(t.minute, 2), Pad(t.second, 2), Pad(t.milli, 3));
    assert s[13..] == s[7..][6..];
  }

  lemma FirstClock()
    ensures "T00:00:00.000Z" == Clock("00", "00", "00", "000")
  {}

  /** The last day has only its first instant. */
  lemma LastDay(s: string, t: Instant)
    requires |s| == 27 && s[7..] == RestText(t) && OnCalendar(t)
    ensures s[13..] == "T00:00:00.000Z" <==> t.hour == 0 && t.minute == 0 && t.second == 0 && t.milli == 0
  {
    assert Power(2) == 100 && Power(3) == 1000;
    ClockOf(t, s);
    FirstClock();
    PadReads(t.hour, 2);
    PadReads(t.minute, 2);
    PadReads(t.second, 2);
    PadReads(t.milli, 3);
    ClockParts(Pad(t.hour, 2), Pad(t.minute, 2), Pad(t.second, 2), Pad(t.milli, 3));
    ClockParts("00", "00", "00", "000");
    Zeros(t.hour);
    Zeros(t.minute);
    Zeros(t.second);
    ThreeZeros(t.milli);
  }

  lemma Zeros(n: nat)
    requires n < 100
    ensures Pad(n, 2) == "00" <==> n == 0
  {
    assert Power(2) == 100;
    PadReads(n, 2);
    PadReads(0, 2);
    assert Pad(0, 1) == "0" && Pad(0, 2) == "00";
  }

  lemma ThreeZeros(n: nat)
    requires n < 1000
    ensures Pad(n, 3) == "000" <==> n == 0
  {
    assert Power(3) == 1000;
    PadReads(n, 3);
    PadReads(0, 3);
    assert Pad(0, 1) == "0" && Pad(0, 2) == "00" && Pad(0, 3) == "000";
  }

  // ----- both directions -----

  /** The instant is one that a timestamp can name. */
  predicate Names(t: Instant, s: string) {
    OnCalendar(t) && InRange(t) && s == IsoText(t)
  }

  lemma ShortParts(s: string)
    requires |s| == 24 && DigitsAt(s, 0, 4)
    ensures I.AllDigits(s[..4]) && Number(s[..4]) == 100 * TwoDigits(s, 0) + TwoDigits(s, 2) <= 9999
    ensures Pad(Number(s[..4]), 4) == s[..4]
  {
    var y := s[..4];
    assert forall i :: 0 <= i < 4 ==> y[i] == s[i];
    FourReads(y);
    ReadsPad(y);
  }

  lemma LongParts(s: string)
    requires |s| == 27 && DigitsAt(s, 1, 6)
    ensures I.AllDigits(s[1..7]) && Number(s[1..7]) == 10000 * TwoDigits(s, 1) + 100 * TwoDigits(s, 3) + TwoDigits(s, 5)
    ensures Pad(Number(s[1..7]), 6) == s[1..7]
  {
    var y := s[1..7];
    assert forall i :: 0 <= i < 6 ==> y[i] == s[i + 1];
    SixReads(y);
    ReadsPad(y);
  }

  /** A timestamp is a year text, and the calendar text of that year behind it. */
  lemma Dated(s: string, o: nat, year: int) returns (t: Instant)
    requires CalendarAt(s, o, year) && s[..o] == YearText(year)
    ensures OnCalendar(t) && t == InstantAt(s, o, year) && s == IsoText(t) && s[o..] == RestText(t)
  {
    t := InstantAt(s, o, year);
    CalendarReads(s, o, year);
    assert s == s[..o] + s[o..];
  }

  lemma ShortYear(s: string) returns (t: Instant)
    requires |s| == 24 && ValidTimestamp(s)
    ensures Names(t, s)
  {
    ShortParts(s);
    t := Dated(s, 4, 100 * TwoDigits(s, 0) + TwoDigits(s, 2));
  }

  /** The year a long timestamp starts with. */
  function LongYearOf(s: string): int
    requires |s| == 27 && DigitsAt(s, 1, 6)
  {
    var size := 10000 * TwoDigits(s, 1) + 100 * TwoDigits(s, 3) + TwoDigits(s, 5);
    if s[0] == '+' then size else -(size as int)
  }

  lemma LongYearText(s: string)
    requires |s| == 27 && DigitsAt(s, 1, 6) && (s[0] == '+' || s[0] == '-') && (LongYearOf(s) < 0 || LongYearOf(s) > 9999)
    ensures YearText(LongYearOf(s)) == s[..7]
  {
    LongParts(s);
    assert s[..7] == [s[0]] + s[1..7];
  }

  lemma LongYear(s: string) returns (t: Instant)
    requires |s| != 24 && ValidTimestamp(s)
    ensures Names(t, s)
  {
    LongYearText(s);
    t := Dated(s, 7, LongYearOf(s));
    LastDay(s, t);
    RangeRead(s, t);
  }

  lemma RangeRead(s: string, t: Instant)
    requires CalendarAt(s, 7, t.year) && InDateRange(s, t.year) && t == InstantAt(s, 7, t.year)
    requires s[13..] == "T00:00:00.000Z" <==> t.hour == 0 && t.minute == 0 && t.second == 0 && t.milli == 0
    ensures InRange(t)
  {}

  lemma ShortText(t: Instant)
    requires OnCalendar(t) && 0 <= t.year <= 9999
    ensures var s := IsoText(t); |s| == 24 && s[..4] == Pad(t.year, 4) && s[4..] == RestText(t)
  {
    assert Power(4) == 10000;
    PadReads(t.year, 4);
    YearCut(Pad(t.year, 4), RestText(t));
    RestLength(t);
  }

  lemma ShortValid(s: string, year: int)
    requires |s| == 24 && DigitsAt(s, 0, 4) && year == 100 * TwoDigits(s, 0) + TwoDigits(s, 2) && CalendarAt(s, 4, year)
    ensures ValidTimestamp(s)
  {}

  lemma WrittenShort(t: Instant)
    requires OnCalendar(t) && 0 <= t.year <= 9999
    ensures ValidTimestamp(IsoText(t))
  {
    var s := IsoText(t);
    ShortText(t);
    CalendarWritten(t, s, 4);
    ShortDigits(s, t.year);
    ShortValid(s, t.year);
  }

  lemma YearCut(year: string, rest: string)
    ensures (year + rest)[..|year|] == year && (year + rest)[|year|..] == rest
  {}

  lemma ShortDigits(s: string, year: nat)
    requires |s| == 24 && year <= 9999 && s[..4] == Pad(year, 4)
    ensures DigitsAt(s, 0, 4) && 100 * TwoDigits(s, 0) + TwoDigits(s, 2) == year
  {
    assert Power(4) == 10000;
    PadReads(year, 4);
    assert forall i :: 0 <= i < 4 ==> s[i] == s[..4][i];
    ShortParts(s);
  }

  function SizeOf(year: int): nat { if year < 0 then -year else year }

  /** The text of a long year, cut into sign, digits and rest. */
  lemma LongText(t: Instant)
    requires OnCalendar(t) && -999_999 <= t.year <= 999_999 && (t.year < 0 || t.year > 9999)
    ensures var s := IsoText(t);
      && |s| == 27 && s[0] == (if t.year < 0 then '-' else '+') && s[1..7] == Pad(SizeOf(t.year), 6) && s[7..] == RestText(t)
  {
    var sign := if t.year < 0 then "-" else "+";
    SixDigits(SizeOf(t.year));
    SignedYear(t.year, sign);
    SignCut(sign, Pad(SizeOf(t.year), 6), RestText(t));
    RestLength(t);
  }

  lemma SixDigits(size: nat)
    requires size <= 999_999
    ensures |Pad(size, 6)| == 6
  {
    assert Power(6) == 1_000_000;
    PadReads(size, 6);
  }

  lemma SignedYear(year: int, sign: string)
    requires year < 0 || year > 9999
    requires sign == if year < 0 then "-" else "+"
    ensures YearText(year) == sign + Pad(SizeOf(year), 6)
  {}

  lemma RestLength(t: Instant)
    requires OnCalendar(t)
    ensures |RestText(t)| == 20
  {
    assert RestText(t)[0..] == RestText(t);
    RestParts(t, RestText(t), 0);
  }

  lemma SignCut(sign: string, digits: string, rest: string)
    requires |sign| == 1 && |digits| == 6
    ensures var s := sign + digits + rest; |s| >= 7 && s[0] == sign[0] && s[1..7] == digits && s[7..] == rest
  {}

  lemma LongDigits(s: string, size: nat)
    requires |s| == 27 && size <= 999_999 && s[1..7] == Pad(size, 6)
    ensures DigitsAt(s, 1, 6) && 10000 * TwoDigits(s, 1) + 100 * TwoDigits(s, 3) + TwoDigits(s, 5) == size
  {
    assert Power(6) == 1_000_000;
    PadReads(size, 6);
    assert forall i :: 1 <= i < 7 ==> s[i] == s[1..7][i - 1];
    LongParts(s);
  }

  lemma WrittenLong(t: Instant)
    requires OnCalendar(t) && InRange(t) && (t.year < 0 || t.year > 9999)
    ensures ValidTimestamp(IsoText(t))
  {
    var s := IsoText(t);
    LongText(t);
    LongDigits(s, SizeOf(t.year));
    CalendarWritten(t, s, 7);
    LastDay(s, t);
    RangeWritten(s, t);
    LongValid(s, t.year);
  }

  lemma RangeWritten(s: string, t: Instant)
    requires CalendarAt(s, 7, t.year) && InRange(t) && t == InstantAt(s, 7, t.year)
    requires s[13..] == "T00:00:00.000Z" <==> t.hour == 0 && t.minute == 0 && t.second == 0 && t.milli == 0
    ensures InDateRange(s, t.year)
  {}

  lemma LongValid(s: string, year: int)
    requires |s| == 27 && (s[0] == '+' || s[0] == '-') && DigitsAt(s, 1, 6) && year == LongYearOf(s)
    requires (year < 0 || year > 9999) && CalendarAt(s, 7, year) && InDateRange(s, year)
    ensures ValidTimestamp(s)
  {}

  /** A text is accepted as a timestamp exactly when it is the text of an instant that a Date can hold. */
  lemma TimestampExact(s: string)
    ensures ValidTimestamp(s) <==> exists t :: Names(t, s)
  {
    if ValidTimestamp(s) {
      if |s| == 24 { var t := ShortYear(s); } else { var t := LongYear(s); }
    }
    if t :| Names(t, s) {
      if 0 <= t.year <= 9999 { WrittenShort(t); } else { WrittenLong(t); }
    }
  }
}
