/** RFC 3339 instants as the scorecard reader holds them: `_instant`, `_instant_shown`
    and `_rfc3339_ns` (RFC 3339 sections 5.6 and 5.7). */
module Instants {
  import opened Basics
  import opened Decimal
  import opened Calendar

  const SECOND: int := 1000000000

  /** Whole seconds since the epoch in UTC; the nanoseconds of a leap second start at SECOND. */
  datatype Instant = Instant(seconds: int, fraction: int)

  datatype Clock = Clock(hour: int, minute: int, second: int)

  /** The groups of the pattern: `digits` is the fraction without its point. */
  datatype Stamp = Stamp(date: Date, clock: Clock, digits: string, offset: int)

  // ---- the pattern -------------------------------------------------------------

  predicate DigitsAt(s: string, i: nat, n: nat) {
    i + n <= |s| && AllDigits(s[i..i + n])
  }

  function MatchDate(s: string): Option<Date> {
    if |s| == 10 && DigitsAt(s, 0, 4) && s[4] == '-' && DigitsAt(s, 5, 2) && s[7] == '-' && DigitsAt(s, 8, 2)
    then Some(Date(Number(s[0..4]), Number(s[5..7]), Number(s[8..10])))
    else None
  }

  function MatchClock(s: string): Option<Clock> {
    if |s| == 8 && DigitsAt(s, 0, 2) && s[2] == ':' && DigitsAt(s, 3, 2) && s[5] == ':' && DigitsAt(s, 6, 2)
    then Some(Clock(Number(s[0..2]), Number(s[3..5]), Number(s[6..8])))
    else None
  }

  /** `Z`, `z` or a signed `hh:mm`, in seconds; the pattern does not bound the hours. */
  function MatchOffset(s: string): Option<int> {
    if s == "Z" || s == "z" then Some(0)
    else if |s| == 6 && (s[0] == '+' || s[0] == '-') && DigitsAt(s, 1, 2) && s[3] == ':' && DigitsAt(s, 4, 2)
    then
      var size := Number(s[1..3]) * 3600 + Number(s[4..6]) * 60;
      Some(if s[0] == '+' then size else -size)
    else None
  }

  /** The fraction's digits and what follows them; no fraction is no digits. */
  function MatchFraction(s: string): Option<(string, string)> {
    if s == "" || s[0] != '.' then Some(("", s))
    else
      var n := DigitRun(s[1..]);
      if n == 0 then None else Some((s[1..1 + n], s[1 + n..]))
  }

  function Match(s: string): Option<Stamp> {
    if |s| < 20 || (s[10] != 'T' && s[10] != 't') then None
    else
      match (MatchDate(s[..10]), MatchClock(s[11..19]), MatchFraction(s[19..]))
      case (Some(date), Some(clock), Some((digits, rest))) =>
        (match MatchOffset(rest)
         case Some(offset) => Some(Stamp(date, clock, digits, offset))
         case None => None)
      case _ => None
  }

  // ---- reading -----------------------------------------------------------------

  /** The first nine digits of the fraction, padded on the right. */
  function Nanos(digits: string): (n: int)
    requires AllDigits(digits)
    ensures 0 <= n < SECOND
  {
    assert AllDigits((digits + Zeros(9))[..9]);
    assert Pow10(9) == SECOND by { assert Pow10(4) == 10000; }
    Number((digits + Zeros(9))[..9])
  }

  lemma MatchedDigits(s: string)
    ensures Match(s).Some? ==> AllDigits(Match(s).value.digits)
    ensures Match(s).Some? ==> Match(s).value.offset % 60 == 0
  {
    if Match(s).Some? {
      var rest := s[19..];
      if rest != "" && rest[0] == '.' {
        assert rest[1..1 + DigitRun(rest[1..])] == rest[1..][..DigitRun(rest[1..])];
      }
    }
  }

  predicate InRange(c: Clock) {
    c.hour <= 23 && c.minute <= 59 && c.second <= 60
  }

  /** The date exists and the time of day is in range. */
  predicate Exists(t: Stamp) {
    ValidDate(t.date) && InRange(t.clock)
  }

  function Value(t: Stamp): Instant
    requires AllDigits(t.digits)
  {
    Instant(
      Days(t.date) * 86400 + t.clock.hour * 3600 + t.clock.minute * 60 + Min(t.clock.second, 59) - t.offset,
      Nanos(t.digits) + (if t.clock.second == 60 then SECOND else 0))
  }

  function Read(s: string): Option<Instant> {
    match Match(s)
    case None => None
    case Some(t) => MatchedDigits(s); if Exists(t) then Some(Value(t)) else None
  }

  // ---- printing ----------------------------------------------------------------

  predicate Leap(i: Instant) { i.fraction >= SECOND }

  function FractionShown(f: nat): string {
    if f == 0 then ""
    else if f % 1000000 == 0 then "." + Padded(f / 1000000, 3)
    else if f % 1000 == 0 then "." + Padded(f / 1000, 6)
    else "." + Padded(f, 9)
  }

  function DateShown(d: Date): string {
    PaddedInt(d.year, 4) + ("-" + PaddedInt(d.month, 2)) + ("-" + PaddedInt(d.day, 2))
  }

  function ClockShown(c: Clock): string {
    PaddedInt(c.hour, 2) + (":" + PaddedInt(c.minute, 2)) + (":" + PaddedInt(c.second, 2))
  }

  function ClockOf(rest: int, leap: bool): Clock {
    Clock(rest / 3600, rest % 3600 / 60, rest % 3600 % 60 + (if leap then 1 else 0))
  }

  function YearOf(i: Instant): int { CivilFromDays(i.seconds / 86400).year }

  function InstantShown(i: Instant): string
    requires i.fraction >= 0
  {
    var f := if Leap(i) then i.fraction - SECOND else i.fraction;
    DateShown(CivilFromDays(i.seconds / 86400)) + ("T" + (ClockShown(ClockOf(i.seconds % 86400, Leap(i)))
      + (FractionShown(f) + "Z")))
  }

  // ---- what reading produces ------------------------------------------------------

  /** What `_instant` produces: a fraction of one second, or of a leap second at the end of a minute. */
  predicate WellFormed(i: Instant) {
    0 <= i.fraction < 2 * SECOND && (Leap(i) ==> i.seconds % 60 == 59)
  }

  lemma LastSecond(days: int, hour: int, minute: int, offset: int)
    requires offset % 60 == 0
    ensures (days * 86400 + hour * 3600 + minute * 60 + 59 - offset) % 60 == 59
  {
    var k := offset / 60;
    Remainder(days * 86400 + hour * 3600 + minute * 60 + 59 - offset, 60,
              days * 1440 + hour * 60 + minute - k, 59);
  }

  lemma ReadIsWellFormed(s: string)
    ensures Read(s).Some? ==> WellFormed(Read(s).value)
  {
    hide Match, Days, Nanos, DaysInMonth;
    MatchedDigits(s);
    if Read(s).Some? {
      var t := Match(s).value;
      LastSecond(Days(t.date), t.clock.hour, t.clock.minute, t.offset);
    }
  }

  // ---- the pieces print and read back ----------------------------------------------

  lemma FieldBack(n: nat, w: nat)
    requires w >= 1 && n < Pow10(w)
    ensures |Padded(n, w)| == w && AllDigits(Padded(n, w)) && Number(Padded(n, w)) == n
  {
    PaddedWidth(n, w);
  }

  lemma Powers()
    ensures Pow10(2) == 100 && Pow10(3) == 1000 && Pow10(4) == 10000 && Pow10(6) == 1000000
    ensures Pow10(9) == SECOND
  {
    assert Pow10(4) == 10000;
    assert Pow10(7) == 10000000;
  }

  lemma DateBack(d: Date)
    requires ValidDate(d) && 0 <= d.year <= 9999
    ensures |DateShown(d)| == 10 && MatchDate(DateShown(d)) == Some(d)
  {
    Powers();
    FieldBack(d.year, 4);
    FieldBack(d.month, 2);
    FieldBack(d.day, 2);
    var s := DateShown(d);
    assert s[0..4] == Padded(d.year, 4);
    assert s[5..7] == Padded(d.month, 2);
    assert s[8..10] == Padded(d.day, 2);
  }

  lemma ClockBack(c: Clock)
    requires 0 <= c.hour <= 23 && 0 <= c.minute <= 59 && 0 <= c.second <= 60
    ensures |ClockShown(c)| == 8 && MatchClock(ClockShown(c)) == Some(c)
  {
    Powers();
    FieldBack(c.hour, 2);
    FieldBack(c.minute, 2);
    FieldBack(c.second, 2);
    var s := ClockShown(c);
    assert s[0..2] == Padded(c.hour, 2);
    assert s[3..5] == Padded(c.minute, 2);
    assert s[6..8] == Padded(c.second, 2);
  }

  lemma NanosOfPadded(n: nat, w: nat)
    requires 1 <= w <= 9 && n < Pow10(w)
    ensures Nanos(Padded(n, w)) == n * Pow10(9 - w)
  {
    hide Padded, Pow10, Zeros, Number;
    FieldBack(n, w);
    assert (Padded(n, w) + Zeros(9))[..9] == Padded(n, w) + Zeros(9)[..9 - w];
    ZerosPrefix(9 - w);
    NumberOfConcat(Padded(n, w), Zeros(9 - w));
  }

  lemma ZerosPrefix(k: nat)
    requires k <= 9
    ensures Zeros(9)[..k] == Zeros(k)
  {
    AllZeros(9);
    AllZeros(k);
  }

  lemma AllZeros(n: nat)
    ensures forall i :: 0 <= i < n ==> Zeros(n)[i] == '0'
  {
  }

  lemma PrintedFraction(n: nat, w: nat, rest: string)
    requires 1 <= w <= 9 && n < Pow10(w)
    requires rest == "" || !IsDigit(rest[0])
    ensures MatchFraction(("." + Padded(n, w)) + rest) == Some((Padded(n, w), rest))
  {
    var s := ("." + Padded(n, w)) + rest;
    assert s[1..] == Padded(n, w) + rest;
    DigitRunIs(Padded(n, w), rest);
    FieldBack(n, w);
    assert s[1..1 + w] == Padded(n, w);
    assert s[1 + w..] == rest;
  }

  lemma NoMark(s: string)
    requires s == "" || s[0] != '.'
    ensures MatchFraction(s) == Some(("", s))
  {
  }

  lemma NoFraction()
    ensures Nanos("") == 0
  {
    assert ("" + Zeros(9))[..9] == Zeros(9);
  }

  lemma FractionBack(f: nat) returns (digits: string)
    requires f < SECOND
    ensures MatchFraction(FractionShown(f) + "Z") == Some((digits, "Z"))
    ensures AllDigits(digits) && Nanos(digits) == f
  {
    Powers();
    hide Padded, Nanos, MatchFraction;
    assert MatchFraction("Z") == Some(("", "Z")) by { NoMark("Z"); }
    if f == 0 {
      digits := "";
      NoFraction();
      assert "" + "Z" == "Z";
    } else if f % 1000000 == 0 {
      digits := Padded(f / 1000000, 3);
      NanosOfPadded(f / 1000000, 3);
      PrintedFraction(f / 1000000, 3, "Z");
    } else if f % 1000 == 0 {
      digits := Padded(f / 1000, 6);
      NanosOfPadded(f / 1000, 6);
      PrintedFraction(f / 1000, 6, "Z");
    } else {
      digits := Padded(f, 9);
      NanosOfPadded(f, 9);
      PrintedFraction(f, 9, "Z");
    }
  }

  lemma ClockParts(seconds: int, leap: bool)
    requires leap ==> seconds % 60 == 59
    ensures var rest := seconds % 86400; var c := ClockOf(rest, leap);
            0 <= c.hour <= 23 && 0 <= c.minute <= 59 && 0 <= c.second <= 60
            && (c.second == 60 <==> leap)
            && c.hour * 3600 + c.minute * 60 + Min(c.second, 59) == rest
  {
    var rest := seconds % 86400;
    assert rest == 3600 * (rest / 3600) + 60 * (rest % 3600 / 60) + rest % 3600 % 60;
    assert seconds == 86400 * (seconds / 86400) + rest;
    var second := rest % 3600 % 60;
    Remainder(seconds, 60, 1440 * (seconds / 86400) + 60 * (rest / 3600) + rest % 3600 / 60, second);
  }

  lemma Assembled(d: string, c: string, f: string)
    requires |d| == 10 && |c| == 8 && |f| >= 1
    ensures var s := d + ("T" + (c + f)); |s| >= 20 && s[..10] == d && s[10] == 'T' && s[11..19] == c && s[19..] == f
  {
  }

  lemma MatchOfShown(i: Instant) returns (digits: string)
    requires WellFormed(i) && 0 <= YearOf(i) <= 9999
    ensures AllDigits(digits) && Nanos(digits) == (if Leap(i) then i.fraction - SECOND else i.fraction)
    ensures Match(InstantShown(i))
            == Some(Stamp(CivilFromDays(i.seconds / 86400), ClockOf(i.seconds % 86400, Leap(i)), digits, 0))
  {
    hide CivilFromDays, ClockOf, DateShown, ClockShown, FractionShown, MatchDate, MatchClock, MatchFraction, Nanos;
    var f := if Leap(i) then i.fraction - SECOND else i.fraction;
    DaysOfCivil(i.seconds / 86400);
    DateBack(CivilFromDays(i.seconds / 86400));
    ClockParts(i.seconds, Leap(i));
    ClockBack(ClockOf(i.seconds % 86400, Leap(i)));
    digits := FractionBack(f);
    Assembled(DateShown(CivilFromDays(i.seconds / 86400)), ClockShown(ClockOf(i.seconds % 86400, Leap(i))),
              FractionShown(f) + "Z");
  }

  lemma ShownReadsBack(i: Instant)
    requires WellFormed(i) && 0 <= YearOf(i) <= 9999
    ensures Read(InstantShown(i)) == Some(i)
  {
    hide CivilFromDays, ClockOf, Match, InstantShown, Days, Nanos;
    var digits := MatchOfShown(i);
    DaysOfCivil(i.seconds / 86400);
    ClockParts(i.seconds, Leap(i));
  }

  /** A year of five digits, or a negative one, prints text the pattern does not match. */
  lemma OtherYearsAreUnreadable(i: Instant)
    requires WellFormed(i) && !(0 <= YearOf(i) <= 9999)
    ensures Read(InstantShown(i)) == None
  {
    var y := YearOf(i);
    var s := InstantShown(i);
    hide Padded, CivilFromDays, ClockOf, ClockShown, FractionShown, MatchClock, MatchFraction, Nanos, Days;
    if y < 0 {
      assert PaddedInt(y, 4)[0] == '-' && s[0] == '-';
      if |s| >= 10 {
        assert s[..10][0..4][0] == '-';
      }
    } else {
      Powers();
      PaddedWidth(y, 4);
      assert s[4] == Padded(y, 4)[4];
      if |s| >= 10 {
        assert s[..10][4] == s[4];
      }
    }
  }

  /** What is printed reads back as the same instant exactly when its UTC year has four digits. */
  lemma PrintAndReadBack(i: Instant)
    requires WellFormed(i)
    ensures Read(InstantShown(i)) == Some(i) <==> 0 <= YearOf(i) <= 9999
  {
    if 0 <= YearOf(i) <= 9999 {
      ShownReadsBack(i);
    } else {
      OtherYearsAreUnreadable(i);
    }
  }

  // ---- the order of instants ---------------------------------------------------------

  predicate Before(a: Instant, b: Instant) {
    a.seconds < b.seconds || (a.seconds == b.seconds && a.fraction < b.fraction)
  }

  /** The minute of UTC a stamp falls in. */
  function UtcMinute(t: Stamp): int {
    Days(t.date) * 1440 + t.clock.hour * 60 + t.clock.minute - t.offset / 60
  }

  /** A leap second comes after every other second of its own UTC minute, `:59.999...` too,
      and before every later minute, whatever the two texts' offsets and dates. */
  lemma LeapSecondSortsInItsMinute(t: Stamp, leap: Stamp)
    requires AllDigits(t.digits) && AllDigits(leap.digits)
    requires Exists(t) && 0 <= t.clock.second < 60 && t.offset % 60 == 0
    requires Exists(leap) && leap.clock.second == 60 && leap.offset % 60 == 0
    ensures Before(Value(t), Value(leap)) <==> UtcMinute(t) <= UtcMinute(leap)
    ensures Before(Value(leap), Value(t)) <==> UtcMinute(leap) < UtcMinute(t)
  {
    hide Days, Nanos, ValidDate;
    assert Value(t).seconds == 60 * UtcMinute(t) + t.clock.second;
    assert Value(leap).seconds == 60 * UtcMinute(leap) + 59;
  }

  /** What the receipt's reader makes of a text: nanoseconds since the epoch, nothing, or an uncaught exception. */
  datatype Reading = At(nanoseconds: int) | Refused | Raised

  /** The day only up to 31. */
  predicate IsDayNumber(t: Stamp) { 1 <= t.date.month <= 12 && 1 <= t.date.day <= 31 && InRange(t.clock) }

  /** `_rfc3339_ns`: `calendar.timegm` carries a day past the month's end and a second past the minute's end, and
      raises an exception for the year 0, which no Python date has. */
  function Nanoseconds(s: string): Reading {
    match Match(s)
    case None => Refused
    case Some(t) =>
      MatchedDigits(s);
      if !IsDayNumber(t) then Refused
      else if t.date.year == 0 then Raised
      else
        At((((DaysFromCivil(t.date.year, t.date.month, 1) + t.date.day - 1) * 24 + t.clock.hour) * 3600
            + t.clock.minute * 60 + t.clock.second - t.offset) * SECOND + Nanos(t.digits))
  }

  function OnTheLine(i: Instant): int { i.seconds * SECOND + i.fraction }

  /** The texts the scorecard's reader takes are taken by the receipt's too, at one point of the line of nanoseconds,
      if and only if their year is not 0; in the year 0 the receipt's reader raises. */
  lemma ReadersAgreeOnTheLine(s: string)
    requires Read(s).Some?
    ensures Match(s).Some?
    ensures Nanoseconds(s) == At(OnTheLine(Read(s).value)) <==> Match(s).value.date.year != 0
    ensures Nanoseconds(s) == Raised <==> Match(s).value.date.year == 0
  {
    hide Match, DaysFromCivil, Nanos;
    MatchedDigits(s);
    var t := Match(s).value;
    assert DaysFromCivil(t.date.year, t.date.month, 1) + t.date.day - 1 == Days(t.date) by {
      DayStep(Date(t.date.year, t.date.month, 1), t.date.day - 1);
    }
  }

  /** The texts only the receipt's reader takes: those of a day up to 31 that the month does not have. */
  lemma OnlyTheReceiptReads(s: string)
    ensures Nanoseconds(s).At? && Read(s).None? <==>
            Match(s).Some? && IsDayNumber(Match(s).value) && Match(s).value.date.year != 0
            && Match(s).value.date.day > DaysInMonth(Match(s).value.date.year, Match(s).value.date.month)
  {
    hide Match, DaysFromCivil, Nanos, DaysInMonth;
    MatchedYears(s);
  }

  /** A matched year has four digits, so it is never negative. */
  lemma MatchedYears(s: string)
    ensures Match(s).Some? ==> 0 <= Match(s).value.date.year <= 9999
  {
    hide MatchClock, MatchFraction, MatchOffset;
    if Match(s).Some? {
      assert |s[..10][0..4]| == 4;
      Powers();
    }
  }

  /** `b` is in the second after leap second `a`, at no later a fraction of it. */
  predicate Overtaken(a: Instant, b: Instant) {
    Leap(a) && b.seconds == a.seconds + 1 && b.fraction <= a.fraction - SECOND
  }

  /** The pair order and the nanosecond order part exactly around a leap second, whose
      nanoseconds `_rfc3339_ns` counts into the next minute. */
  lemma OrdersPartAtLeapSeconds(a: Instant, b: Instant)
    requires WellFormed(a) && WellFormed(b)
    ensures (Before(a, b) <==> OnTheLine(a) < OnTheLine(b))
            <==> !Overtaken(a, b) && !(Overtaken(b, a) && OnTheLine(a) != OnTheLine(b))
  {
  }

  // ---- texts at which the two failures are seen -------------------------------------------

  lemma TwoDigits(s: string)
    requires |s| == 2 && AllDigits(s)
    ensures Number(s) == 10 * DigitValue(s[0]) + DigitValue(s[1])
  {
    assert s[..1] == [s[0]] && s[..1][..0] == "";
    assert Number(s[..1]) == 10 * Number("") + DigitValue(s[0]);
  }

  lemma FourDigits(s: string)
    requires |s| == 4 && AllDigits(s)
    ensures Number(s) == 1000 * DigitValue(s[0]) + 100 * DigitValue(s[1]) + 10 * DigitValue(s[2]) + DigitValue(s[3])
  {
    TwoDigits(s[..2]);
    TwoDigits(s[2..]);
    NumberOfConcat(s[..2], s[2..]);
    assert s[..2] + s[2..] == s;
    assert Pow10(2) == 100;
  }

  lemma DateOfText(s: string)
    requires |s| == 10 && s[4] == '-' && s[7] == '-'
    requires DigitsAt(s, 0, 4) && DigitsAt(s, 5, 2) && DigitsAt(s, 8, 2)
    ensures MatchDate(s) == Some(Date(
      1000 * DigitValue(s[0]) + 100 * DigitValue(s[1]) + 10 * DigitValue(s[2]) + DigitValue(s[3]),
      10 * DigitValue(s[5]) + DigitValue(s[6]), 10 * DigitValue(s[8]) + DigitValue(s[9])))
  {
    hide Number;
    FourDigits(s[0..4]);
    TwoDigits(s[5..7]);
    TwoDigits(s[8..10]);
  }

  lemma ClockOfText(s: string)
    requires |s| == 8 && s[2] == ':' && s[5] == ':'
    requires DigitsAt(s, 0, 2) && DigitsAt(s, 3, 2) && DigitsAt(s, 6, 2)
    ensures MatchClock(s) == Some(Clock(10 * DigitValue(s[0]) + DigitValue(s[1]),
                                        10 * DigitValue(s[3]) + DigitValue(s[4]),
                                        10 * DigitValue(s[6]) + DigitValue(s[7])))
  {
    hide Number;
    TwoDigits(s[0..2]);
    TwoDigits(s[3..5]);
    TwoDigits(s[6..8]);
  }

  lemma FractionOfText(digits: string, zone: string)
    requires AllDigits(digits) && zone != "" && !IsDigit(zone[0]) && zone[0] != '.'
    ensures MatchFraction((if digits == "" then "" else "." + digits) + zone) == Some((digits, zone))
  {
    hide DigitRun;
    if digits == "" {
      assert "" + zone == zone;
    } else {
      var tail := "." + digits + zone;
      DigitRunIs(digits, zone);
      assert tail[1..] == digits + zone;
      assert tail[1..1 + |digits|] == digits && tail[1 + |digits|..] == zone;
    }
  }

  /** A date, a clock, a fraction and an offset that match, put together. */
  lemma StampOfText(date: string, clock: string, digits: string, zone: string)
    requires |date| == 10 && |clock| == 8 && MatchDate(date).Some? && MatchClock(clock).Some?
    requires AllDigits(digits) && zone != "" && !IsDigit(zone[0]) && zone[0] != '.' && MatchOffset(zone).Some?
    ensures Match(date + ("T" + (clock + ((if digits == "" then "" else "." + digits) + zone))))
            == Some(Stamp(MatchDate(date).value, MatchClock(clock).value, digits, MatchOffset(zone).value))
  {
    hide MatchDate, MatchClock, MatchOffset, MatchFraction;
    FractionOfText(digits, zone);
    Assembled(date, clock, (if digits == "" then "" else "." + digits) + zone);
  }

  const LAST_MINUTE: string := "9999-12-31" + ("T" + ("23:59:59" + ("" + "-00:01")))

  lemma LastMinuteReads()
    ensures Match(LAST_MINUTE) == Some(Stamp(Date(9999, 12, 31), Clock(23, 59, 59), "", -60))
  {
    hide Match, Number, MatchDate, MatchClock;
    DateOfText("9999-12-31");
    ClockOfText("23:59:59");
    MinusOneMinute();
    StampOfText("9999-12-31", "23:59:59", "", "-00:01");
  }

  lemma MinusOneMinute()
    ensures MatchOffset("-00:01") == Some(-60)
  {
    TwoDigits("-00:01"[1..3]);
    TwoDigits("-00:01"[4..6]);
  }

  /** An instant the reader takes but cannot read back: a minute west of UTC, the last minute of the year 9999 is in
      10000. */
  lemma AReadableInstantPrintsUnreadably()
    ensures Read(LAST_MINUTE).Some? && YearOf(Read(LAST_MINUTE).value) == 10000
    ensures Read(InstantShown(Read(LAST_MINUTE).value)) == None
  {
    hide Match, DaysFromCivil, CivilFromDays, Nanos, InstantShown;
    LastMinuteReads();
    assert ValidDate(Date(9999, 12, 31)) && ValidDate(Date(10000, 1, 1));
    YearEnd(9999);
    CivilOfDays(Date(10000, 1, 1));
    var i := Read(LAST_MINUTE).value;
    assert i.seconds == Days(Date(10000, 1, 1)) * 86400 + 59;
    assert i.seconds / 86400 == Days(Date(10000, 1, 1));
    ReadIsWellFormed(LAST_MINUTE);
    PrintAndReadBack(i);
    OtherYearsAreUnreadable(i);
  }

  const IN_LEAP_SECOND: string := "2016-12-31" + ("T" + ("23:59:60" + (("." + "5") + "Z")))

  const AFTER_LEAP_SECOND: string := "2017-01-01" + ("T" + ("00:00:00" + (("." + "2") + "Z")))

  lemma LeapTextsRead()
    ensures Match(IN_LEAP_SECOND) == Some(Stamp(Date(2016, 12, 31), Clock(23, 59, 60), "5", 0))
    ensures Match(AFTER_LEAP_SECOND) == Some(Stamp(Date(2017, 1, 1), Clock(0, 0, 0), "2", 0))
  {
    hide Match, Number, MatchDate, MatchClock;
    DateOfText("2016-12-31");
    ClockOfText("23:59:60");
    StampOfText("2016-12-31", "23:59:60", "5", "Z");
    DateOfText("2017-01-01");
    ClockOfText("00:00:00");
    StampOfText("2017-01-01", "00:00:00", "2", "Z");
  }

  lemma TenthsInNanos(digit: string)
    requires |digit| == 1 && AllDigits(digit)
    ensures Nanos(digit) == DigitValue(digit[0]) * 100000000
  {
    hide Zeros;
    assert digit[..0] == "" && Number("") == 0;
    assert Number(digit) == DigitValue(digit[0]);
    ZerosPrefix(8);
    assert (digit + Zeros(9))[..9] == digit + Zeros(9)[..8];
    NumberOfConcat(digit, Zeros(8));
    assert Pow10(4) == 10000;
    assert Pow10(8) == 100000000;
  }

  /** Two texts both readers take and order differently: half way through a leap second, and two tenths after it. */
  lemma TheReadersOrderALeapSecondDifferently()
    ensures Read(IN_LEAP_SECOND).Some? && Read(AFTER_LEAP_SECOND).Some?
    ensures Before(Read(IN_LEAP_SECOND).value, Read(AFTER_LEAP_SECOND).value)
    ensures Nanoseconds(IN_LEAP_SECOND).At? && Nanoseconds(AFTER_LEAP_SECOND).At?
    ensures Nanoseconds(IN_LEAP_SECOND).nanoseconds > Nanoseconds(AFTER_LEAP_SECOND).nanoseconds
  {
    hide Match, DaysFromCivil, Nanos, Nanoseconds;
    LeapTextsRead();
    TenthsInNanos("5");
    TenthsInNanos("2");
    YearEnd(2016);
    ReadersAgreeOnTheLine(IN_LEAP_SECOND);
    ReadersAgreeOnTheLine(AFTER_LEAP_SECOND);
  }

  const YEAR_ZERO: string := "0000-01-01" + ("T" + ("00:00:00" + ("" + "Z")))

  /** A text the scorecard's reader takes and the receipt's reader raises at. */
  lemma TheYearZeroRaises()
    ensures Read(YEAR_ZERO).Some? && Nanoseconds(YEAR_ZERO) == Raised
  {
    hide Match, Number, MatchDate, MatchClock;
    DateOfText("0000-01-01");
    ClockOfText("00:00:00");
    StampOfText("0000-01-01", "00:00:00", "", "Z");
  }

  const NO_SUCH_DAY: string := "2023-02-30" + ("T" + ("00:00:00" + ("" + "Z")))

  /** A text the receipt's reader takes, as the second of March, and the scorecard's refuses. */
  lemma OnlyTheReceiptReadsThis()
    ensures Read(NO_SUCH_DAY) == None && Nanoseconds(NO_SUCH_DAY).At?
  {
    hide Match, Number, MatchDate, MatchClock, DaysFromCivil, Nanos;
    DateOfText("2023-02-30");
    ClockOfText("00:00:00");
    StampOfText("2023-02-30", "00:00:00", "", "Z");
  }
}
