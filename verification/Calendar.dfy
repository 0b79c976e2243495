/** Proleptic Gregorian day conversion: `_days_from_civil` and `_civil_from_days`. */
module Calendar {

  datatype Date = Date(year: int, month: int, day: int)

  function DaysFromCivil(year: int, month: int, day: int): int {
    var y := if month <= 2 then year - 1 else year;
    var era := y / 400;
    var yoe := y - era * 400;
    var doy := (153 * (month + (if month > 2 then -3 else 9)) + 2) / 5 + day - 1;
    var doe := yoe * 365 + yoe / 4 - yoe / 100 + doy;
    era * 146097 + doe - 719468
  }

  function YearOfEra(doe: int): int {
    (doe - doe / 1460 + doe / 36524 - doe / 146096) / 365
  }

  function MarchMonth(doy: int): int {
    (5 * doy + 2) / 153
  }

  /** The date of day `doy` of the March-based year `year`. */
  function DateInYear(year: int, doy: int): Date {
    var mp := MarchMonth(doy);
    var day := doy - (153 * mp + 2) / 5 + 1;
    var month := mp + (if mp < 10 then 3 else -9);
    Date(if month <= 2 then year + 1 else year, month, day)
  }

  function DateInEra(era: int, doe: int): Date {
    var yoe := YearOfEra(doe);
    DateInYear(yoe + era * 400, doe - (365 * yoe + yoe / 4 - yoe / 100))
  }

  function CivilFromDays(days: int): Date {
    var n := days + 719468;
    var era := n / 146097;
    DateInEra(era, n - era * 146097)
  }

  predicate IsLeap(year: int) {
    year % 4 == 0 && (year % 100 != 0 || year % 400 == 0)
  }

  function DaysInMonth(year: int, month: int): int {
    if month == 2 then (if IsLeap(year) then 29 else 28)
    else if month in {4, 6, 9, 11} then 30
    else 31
  }

  predicate ValidDate(d: Date) {
    1 <= d.month <= 12 && 1 <= d.day <= DaysInMonth(d.year, d.month)
  }

  function Days(d: Date): int {
    DaysFromCivil(d.year, d.month, d.day)
  }

  // The reference count: whole years one at a time, then whole months, then days.

  function YearLength(year: int): int {
    if IsLeap(year) then 366 else 365
  }

  function YearsSinceEpoch(year: int): int
    decreases if year < 1970 then 1970 - year else year - 1970
  {
    if year == 1970 then 0
    else if year > 1970 then YearsSinceEpoch(year - 1) + YearLength(year - 1)
    else YearsSinceEpoch(year + 1) - YearLength(year)
  }

  function MonthsBefore(year: int, month: int): int
    decreases month
  {
    if month <= 1 then 0 else MonthsBefore(year, month - 1) + DaysInMonth(year, month - 1)
  }

  function CountedDays(d: Date): int {
    YearsSinceEpoch(d.year) + MonthsBefore(d.year, d.month) + d.day - 1
  }

  predicate Earlier(a: Date, b: Date) {
    a.year < b.year
    || (a.year == b.year && a.month < b.month)
    || (a.year == b.year && a.month == b.month && a.day < b.day)
  }

  // ---- a year as quarter-centuries, olympiads and years ----------------------

  /** `p` as 400 * e + 100 * c + 4 * q + r, with every quotient the conversions take of it. */
  lemma Split(p: int) returns (e: int, c: int, q: int, r: int)
    ensures 0 <= c < 4 && 0 <= q < 25 && 0 <= r < 4
    ensures p == 400 * e + 100 * c + 4 * q + r
    ensures p / 400 == e && (p - 400 * e) / 4 == 25 * c + q && (p - 400 * e) / 100 == c
    ensures IsLeap(p) <==> r == 0 && (q != 0 || c == 0)
    ensures IsLeap(p + 1) <==> r == 3 && (q != 24 || c == 3)
  {
    e := p / 400;
    var yoe := p - 400 * e;
    c := yoe / 100;
    var yoc := yoe - 100 * c;
    q := yoc / 4;
    r := yoc - 4 * q;
    LeapByParts(p, e, c, q, r);
    if r == 3 {
      if q == 24 {
        if c == 3 { LeapByParts(p + 1, e + 1, 0, 0, 0); } else { LeapByParts(p + 1, e, c + 1, 0, 0); }
      } else {
        LeapByParts(p + 1, e, c, q + 1, 0);
      }
    } else {
      LeapByParts(p + 1, e, c, q, r + 1);
    }
  }

  lemma Multiple(m: int, d: int)
    requires m > 0
    ensures d >= 1 ==> m * d >= m
    ensures d <= -1 ==> m * d <= -m
  {
  }

  lemma Remainder(p: int, m: int, k: int, r: int)
    requires m > 0 && 0 <= r < m && p == m * k + r
    ensures p % m == r && p / m == k
  {
    var d := p / m - k;
    assert m * d == r - p % m;
    Multiple(m, d);
  }

  lemma LeapByParts(p: int, e: int, c: int, q: int, r: int)
    requires 0 <= c < 4 && 0 <= q < 25 && 0 <= r < 4
    requires p == 400 * e + 100 * c + 4 * q + r
    ensures IsLeap(p) <==> r == 0 && (q != 0 || c == 0)
  {
    Remainder(p, 4, 100 * e + 25 * c + q, r);
    Remainder(p, 100, 4 * e + c, 4 * q + r);
    Remainder(p, 400, e, 100 * c + 4 * q + r);
  }

  /** The day of a date of the March-based year `p`, from the parts of `p`. */
  function DayByParts(e: int, c: int, q: int, r: int, doy: int): int {
    146097 * e + 36524 * c + 1461 * q + 365 * r + doy - 719468
  }

  function DayOfYear(month: int, day: int): int {
    (153 * (month + (if month > 2 then -3 else 9)) + 2) / 5 + day - 1
  }

  lemma DaysByParts(year: int, month: int, day: int, e: int, c: int, q: int, r: int)
    requires 1 <= month <= 12 && 0 <= c < 4 && 0 <= q < 25 && 0 <= r < 4
    requires (if month <= 2 then year - 1 else year) == 400 * e + 100 * c + 4 * q + r
    ensures DaysFromCivil(year, month, day) == DayByParts(e, c, q, r, DayOfYear(month, day))
  {
    var y := if month <= 2 then year - 1 else year;
    var yoe := 100 * c + 4 * q + r;
    assert y / 400 == e;
    assert yoe / 4 == 25 * c + q;
    assert yoe / 100 == c;
  }

  /** One whole March-based year: from a date of `p` to the same date of `p + 1`. */
  lemma MarchYearStep(p: int) returns (now: int, next: int)
    ensures now == DaysFromCivil(p, 3, 1) && next == DaysFromCivil(p + 1, 3, 1)
    ensures next == now + YearLength(p + 1)
  {
    var e, c, q, r := Split(p);
    DaysByParts(p, 3, 1, e, c, q, r);
    now := DayByParts(e, c, q, r, 0);
    if r < 3 {
      DaysByParts(p + 1, 3, 1, e, c, q, r + 1);
      next := now + 365;
    } else if q < 24 {
      DaysByParts(p + 1, 3, 1, e, c, q + 1, 0);
      next := now + 366;
    } else if c < 3 {
      DaysByParts(p + 1, 3, 1, e, c + 1, 0, 0);
      next := now + 365;
    } else {
      DaysByParts(p + 1, 3, 1, e + 1, 0, 0, 0);
      next := now + 366;
    }
  }

  /** January and February are the tail of the March-based year before. */
  lemma FromMarch(year: int, month: int, day: int)
    requires 1 <= month <= 12
    ensures DaysFromCivil(year, month, day)
            == DaysFromCivil(if month <= 2 then year - 1 else year, 3, 1) + DayOfYear(month, day)
  {
    var y := if month <= 2 then year - 1 else year;
    var e, c, q, r := Split(y);
    DaysByParts(year, month, day, e, c, q, r);
    DaysByParts(y, 3, 1, e, c, q, r);
  }

  // ---- the naive count -------------------------------------------------------

  lemma YearStep(y: int)
    ensures DaysFromCivil(y + 1, 1, 1) == DaysFromCivil(y, 1, 1) + YearLength(y)
  {
    var now, next := MarchYearStep(y - 1);
    FromMarch(y, 1, 1);
    FromMarch(y + 1, 1, 1);
  }

  lemma {:induction false} JanuaryFirst(y: int)
    ensures DaysFromCivil(y, 1, 1) == YearsSinceEpoch(y)
    decreases if y < 1970 then 1970 - y else y - 1970
  {
    if y > 1970 {
      JanuaryFirst(y - 1);
      YearStep(y - 1);
    } else if y < 1970 {
      JanuaryFirst(y + 1);
      YearStep(y);
    }
  }

  lemma MonthStep(y: int, m: int)
    requires 1 <= m <= 11
    ensures DaysFromCivil(y, m + 1, 1) == DaysFromCivil(y, m, 1) + DaysInMonth(y, m)
  {
    hide DaysFromCivil, IsLeap;
    FromMarch(y, m, 1);
    FromMarch(y, m + 1, 1);
    if m == 2 {
      var now, next := MarchYearStep(y - 1);
    }
  }

  lemma {:induction false} MonthStart(y: int, m: int)
    requires 1 <= m <= 12
    ensures DaysFromCivil(y, m, 1) == DaysFromCivil(y, 1, 1) + MonthsBefore(y, m)
    decreases m
  {
    if m > 1 {
      MonthStart(y, m - 1);
      MonthStep(y, m - 1);
    }
  }

  /** The closed form is the calendar: it counts what counting year by year and
      month by month counts. */
  lemma DaysAreCounted(d: Date)
    requires ValidDate(d)
    ensures Days(d) == CountedDays(d)
  {
    JanuaryFirst(d.year);
    MonthStart(d.year, d.month);
  }

  // ---- the round trips -------------------------------------------------------

  /** The year of era recovered from the day of era. */
  lemma YearOfEraByParts(c: int, q: int, r: int, doy: int)
    requires 0 <= c < 4 && 0 <= q < 25 && 0 <= r < 4 && 0 <= doy <= 365
    requires doy == 365 ==> r == 3 && (q != 24 || c == 3)
    ensures var doe := 36524 * c + 1461 * q + 365 * r + doy;
            0 <= doe < 146097
            && YearOfEra(doe) == 100 * c + 4 * q + r
  {
    var doe := 36524 * c + 1461 * q + 365 * r + doy;
    var over := 24 * c + q + 365 * r + doy >= 1460;
    var last := doe == 146096;
    assert doe / 1460 == 25 * c + q + (if over then 1 else 0);
    assert doe / 36524 == c + (if last then 1 else 0);
    assert doe / 146096 == (if last then 1 else 0);
  }

  lemma MonthOfDay(y: int, month: int, day: int)
    requires 1 <= month <= 12 && 1 <= day <= (if month == 2 then 29 else if month in {4, 6, 9, 11} then 30 else 31)
    ensures var doy := DayOfYear(month, day);
            0 <= doy <= 365 && (doy == 365 <==> month == 2 && day == 29)
            && DateInYear(y, doy) == Date(if month <= 2 then y + 1 else y, month, day)
  {
    var mp := month + (if month > 2 then -3 else 9);
    var doy := DayOfYear(month, day);
    assert 153 * mp <= 5 * doy + 2 < 153 * mp + 153;
  }

  lemma DateInEraByParts(e: int, c: int, q: int, r: int, doy: int)
    requires 0 <= c < 4 && 0 <= q < 25 && 0 <= r < 4 && 0 <= doy <= 365
    requires doy == 365 ==> r == 3 && (q != 24 || c == 3)
    ensures DateInEra(e, 36524 * c + 1461 * q + 365 * r + doy)
            == DateInYear(400 * e + 100 * c + 4 * q + r, doy)
  {
    YearOfEraByParts(c, q, r, doy);
    var doe := 36524 * c + 1461 * q + 365 * r + doy;
    var yoe := YearOfEra(doe);
    assert yoe / 4 == 25 * c + q;
    assert yoe / 100 == c;
    assert doe - (365 * yoe + yoe / 4 - yoe / 100) == doy;
  }

  lemma CivilByParts(e: int, c: int, q: int, r: int, doy: int)
    requires 0 <= c < 4 && 0 <= q < 25 && 0 <= r < 4 && 0 <= doy <= 365
    requires doy == 365 ==> r == 3 && (q != 24 || c == 3)
    ensures CivilFromDays(DayByParts(e, c, q, r, doy))
            == DateInEra(e, 36524 * c + 1461 * q + 365 * r + doy)
  {
    var n := DayByParts(e, c, q, r, doy) + 719468;
    assert n / 146097 == e;
  }

  /** Every valid date survives conversion to a day and back. */
  lemma CivilOfDays(d: Date)
    requires ValidDate(d)
    ensures CivilFromDays(Days(d)) == d
  {
    hide DaysFromCivil, CivilFromDays, DateInEra, DateInYear, DayByParts, DayOfYear;
    var y := if d.month <= 2 then d.year - 1 else d.year;
    var e, c, q, r := Split(y);
    MonthOfDay(y, d.month, d.day);
    DaysByParts(d.year, d.month, d.day, e, c, q, r);
    DateInEraByParts(e, c, q, r, DayOfYear(d.month, d.day));
    CivilByParts(e, c, q, r, DayOfYear(d.month, d.day));
  }

  // ---- walking the calendar a day at a time ----------------------------------

  function NextDate(d: Date): Date {
    if d.day < DaysInMonth(d.year, d.month) then Date(d.year, d.month, d.day + 1)
    else if d.month < 12 then Date(d.year, d.month + 1, 1)
    else Date(d.year + 1, 1, 1)
  }

  function PreviousDate(d: Date): Date {
    if d.day > 1 then Date(d.year, d.month, d.day - 1)
    else if d.month > 1 then Date(d.year, d.month - 1, DaysInMonth(d.year, d.month - 1))
    else Date(d.year - 1, 12, 31)
  }

  lemma YearLengthByMonths(y: int)
    ensures MonthsBefore(y, 12) + 31 == YearLength(y)
  {
    assert MonthsBefore(y, 4) == 31 + DaysInMonth(y, 2) + 31;
    assert MonthsBefore(y, 8) == MonthsBefore(y, 4) + 30 + 31 + 30 + 31;
    assert MonthsBefore(y, 12) == MonthsBefore(y, 8) + 31 + 30 + 31 + 30;
  }

  /** The 31st of December is the day before the 1st of January. */
  lemma YearEnd(y: int)
    ensures DaysFromCivil(y, 12, 31) + 1 == DaysFromCivil(y + 1, 1, 1)
  {
    MonthStart(y, 12);
    YearLengthByMonths(y);
    YearStep(y);
  }

  lemma DayStep(d: Date, n: int)
    ensures DaysFromCivil(d.year, d.month, d.day + n) == Days(d) + n
  {
  }

  lemma NextDay(d: Date)
    requires ValidDate(d)
    ensures ValidDate(NextDate(d)) && Days(NextDate(d)) == Days(d) + 1
  {
    if d.day < DaysInMonth(d.year, d.month) {
      DayStep(d, 1);
    } else if d.month < 12 {
      MonthStep(d.year, d.month);
      DayStep(d, 1 - d.day);
    } else {
      YearEnd(d.year);
    }
  }

  lemma PreviousDay(d: Date)
    requires ValidDate(d)
    ensures ValidDate(PreviousDate(d)) && Days(PreviousDate(d)) == Days(d) - 1
  {
    if d.day > 1 {
      DayStep(d, -1);
    } else if d.month > 1 {
      MonthStep(d.year, d.month - 1);
      DayStep(PreviousDate(d), 1 - PreviousDate(d).day);
    } else {
      YearEnd(d.year - 1);
    }
  }

  lemma {:induction false} DateOfDay(n: int) returns (d: Date)
    ensures ValidDate(d) && Days(d) == n
    decreases if n < 0 then -n else n
  {
    if n == 0 {
      d := Date(1970, 1, 1);
    } else if n > 0 {
      d := DateOfDay(n - 1);
      NextDay(d);
      d := NextDate(d);
    } else {
      d := DateOfDay(n + 1);
      PreviousDay(d);
      d := PreviousDate(d);
    }
  }

  /** Every integer is a day: it converts to a valid date, and back to itself. */
  lemma DaysOfCivil(n: int)
    ensures ValidDate(CivilFromDays(n)) && Days(CivilFromDays(n)) == n
  {
    var d := DateOfDay(n);
    CivilOfDays(d);
  }

  // ---- the order -------------------------------------------------------------

  lemma {:induction false} YearsAscend(y: int, z: int)
    requires y <= z
    ensures DaysFromCivil(y, 1, 1) <= DaysFromCivil(z, 1, 1)
    decreases z - y
  {
    if y < z {
      YearsAscend(y, z - 1);
      YearStep(z - 1);
    }
  }

  lemma {:induction false} MonthsAscend(y: int, m: int, n: int)
    requires 1 <= m <= n <= 12
    ensures DaysFromCivil(y, m, 1) <= DaysFromCivil(y, n, 1)
    decreases n - m
  {
    if m < n {
      MonthsAscend(y, m, n - 1);
      MonthStep(y, n - 1);
    }
  }

  /** The days of a month lie before the next month, the year's before the next year. */
  lemma MonthEnd(d: Date)
    requires ValidDate(d)
    ensures DaysFromCivil(d.year, d.month, 1) <= Days(d)
    ensures d.month < 12 ==> Days(d) < DaysFromCivil(d.year, d.month + 1, 1)
    ensures Days(d) < DaysFromCivil(d.year + 1, 1, 1)
  {
    DayStep(d, 1 - d.day);
    if d.month < 12 {
      MonthStep(d.year, d.month);
      MonthsAscend(d.year, d.month + 1, 12);
    }
    DayStep(Date(d.year, 12, 31), -30);
    YearEnd(d.year);
  }

  lemma EarlierIsSmaller(a: Date, b: Date)
    requires ValidDate(a) && ValidDate(b) && Earlier(a, b)
    ensures Days(a) < Days(b)
  {
    hide DaysFromCivil, DaysInMonth, IsLeap;
    MonthEnd(a);
    MonthEnd(b);
    if a.year < b.year {
      YearsAscend(a.year + 1, b.year);
      MonthsAscend(b.year, 1, b.month);
    } else if a.month < b.month {
      MonthsAscend(a.year, a.month + 1, b.month);
    } else {
      DayStep(a, b.day - a.day);
    }
  }

  /** Day order is date order. */
  lemma DayOrderIsDateOrder(a: Date, b: Date)
    requires ValidDate(a) && ValidDate(b)
    ensures Days(a) < Days(b) <==> Earlier(a, b)
  {
    if Earlier(a, b) {
      EarlierIsSmaller(a, b);
    } else if a != b {
      EarlierIsSmaller(b, a);
    }
  }
}
