/** Time stamps and calendar dates (src/timegm.c, src/date.h), with a leap year every four years:
    the conversion to a date guesses the year and corrects its guess. */
module Calendar {

  /** C's division and remainder, which truncate towards zero. */
  function CDiv(a: int, b: int): int
    requires b > 0
  {
    if a >= 0 then a / b else -(-a / b)
  }

  function CMod(a: int, b: int): int
    requires b > 0
  {
    a - CDiv(a, b) * b
  }

  predicate Leap(year: int) { CMod(year, 4) == 0 }

  function YearLength(year: int): int { if Leap(year) then 366 else 365 }

  /** Days from the start of 1970 to the start of a year. */
  function DaysBefore(year: int): int { 365 * (year - 1970) + (year - 1) / 4 - 492 }

  lemma YearAfterYear(year: int)
    requires year >= 1
    ensures DaysBefore(year + 1) == DaysBefore(year) + YearLength(year)
  {
  }

  /** D is a day of year y. */
  predicate InYear(d: int, y: int) { DaysBefore(y) <= d < DaysBefore(y + 1) }

  lemma {:induction false} YearOf(d: nat, from: int) returns (y: int)
    requires from >= 1970 && DaysBefore(from) <= d
    ensures y >= from && InYear(d, y)
    decreases d - DaysBefore(from)
  {
    if d < DaysBefore(from + 1) {
      y := from;
    } else {
      YearAfterYear(from);
      y := YearOf(d, from + 1);
    }
  }

  // ---------------------------------------------------------------- guessing the year

  /** How far off a guess is for day d of year y. The last day of a year may be guessed one year
      late after being guessed one year early, the first one the other way around. */
  function Rank(yy: int, y: int, d: int): nat {
    if yy == y then 0
    else if yy == y - 1 then if d == DaysBefore(y + 1) - 1 then 2 else 1
    else if yy == y + 1 then if d == DaysBefore(y) then 2 else 1
    else 2 + if yy < y then y - yy else yy - y
  }

  /** The guesses come late by a few years at most, and never much before 1970. */
  predicate Near(yy: int, y: int) { 1969 <= yy <= y + 1 + (y - 1969) / 1460 }

  function Guess(yy: int, days: int): int { yy + CDiv(days, 365) - if CMod(days, 365) < 0 then 1 else 0 }

  lemma GuessIsFloor(yy: int, days: int)
    ensures Guess(yy, days) == yy + days / 365
  {
  }

  /** A guess that is early gets late by less than it was early, or right. */
  lemma EarlyGuess(yy: int, y: int, d: int)
    requires Near(yy, y) && yy < y && y >= 1970 && InYear(d, y)
    ensures var yg := yy + (d - DaysBefore(yy)) / 365; Near(yg, y) && Rank(yg, y, d) < Rank(yy, y, d)
  {
    var m, k := y - yy, (d - DaysBefore(yy)) / 365;
    assert k >= m;
    assert 365 * (k - m) <= 365 + m / 4;
    assert k - m <= 1 + m / 1460;
    if m == 1 {
      assert k == 1 || (k == 2 && d == DaysBefore(y + 1) - 1);
    }
  }

  /** A guess that is late gets early by less than it was late, or right. */
  lemma LateGuess(yy: int, y: int, d: int)
    requires Near(yy, y) && yy > y && y >= 1970 && InYear(d, y)
    ensures var yg := yy + (d - DaysBefore(yy)) / 365; Near(yg, y) && Rank(yg, y, d) < Rank(yy, y, d)
  {
    var n, k := yy - y, -((d - DaysBefore(yy)) / 365);
    assert k >= n;
    assert k - n <= 1 + n / 1460;
    if n == 1 {
      assert k == 1 || (k == 2 && d == DaysBefore(y));
    }
  }

  /** A guess that is off gets closer; the days are those since the start of the year guessed. */
  lemma CloserGuess(yy: int, y: int, d: int, days: int)
    requires Near(yy, y) && y >= 1970 && InYear(d, y) && DaysBefore(yy) + days == d
    requires days < 0 || days >= YearLength(yy)
    ensures var yg := Guess(yy, days);
            && Near(yg, y) && Rank(yg, y, d) < Rank(yy, y, d)
            && DaysBefore(yg) == DaysBefore(yy) + (yg - yy) * 365 + CDiv(yg - 1, 4) - CDiv(yy - 1, 4)
  {
    GuessIsFloor(yy, days);
    YearAfterYear(yy);
    if yy < y {
      EarlyGuess(yy, y, d);
    } else if yy > y {
      LateGuess(yy, y, d);
    }
  }

  /** The loop of ffff_gmtime: the year a day falls into, and the day in that year. */
  method FindYear(days0: nat) returns (yy: int, days: int)
    ensures yy >= 1970 && 0 <= days < YearLength(yy) && DaysBefore(yy) + days == days0
  {
    ghost var y := YearOf(days0, 1970);
    yy, days := 1970, days0;
    while days < 0 || days >= (if !Leap(yy) then 365 else 366)
      invariant Near(yy, y) && DaysBefore(yy) + days == days0
      decreases Rank(yy, y, days0)
    {
      var yg := Guess(yy, days);
      CloserGuess(yy, y, days0, days);
      days := days - ((yg - yy) * 365 + CDiv(yg - 1, 4) - CDiv(yy - 1, 4));
      yy := yg;
    }
    YearAfterYear(yy);
    assert InYear(days0, yy);
    OneYear(days0, yy, y);
  }

  lemma OneYear(d: int, y: int, z: int)
    requires InYear(d, y) && InYear(d, z)
    ensures y == z
  {
  }

  // ---------------------------------------------------------------- dates

  /** struct tm: the year counts from 1900, the month and the day of the year from 0. */
  datatype Tm = Tm(sec: int, min: int, hour: int, mday: int, mon: int, year: int, wday: int, yday: int)

  /** Days before each month, in common and in leap years. */
  function MonYday(leap: bool): (r: seq<int>)
    ensures |r| == 13
  {
    if leap then [0, 31, 60, 91, 121, 152, 182, 213, 244, 274, 305, 335, 366]
    else [0, 31, 59, 90, 120, 151, 181, 212, 243, 273, 304, 334, 365]
  }

  /** The days of a month, January being month 0. */
  function MonthLength(leap: bool, mon: nat): nat {
    match mon
    case 3 | 5 | 8 | 10 => 30
    case 1 => if leap then 29 else 28
    case _ => 31
  }

  /** The days of the first so many months. */
  function MonthsBefore(leap: bool, mon: nat): nat {
    if mon == 0 then 0 else MonthsBefore(leap, mon - 1) + MonthLength(leap, mon - 1)
  }

  /** The table adds up the lengths of the months. */
  lemma TableAddsUp(leap: bool, mon: nat)
    requires mon < 12
    ensures MonYday(leap)[mon] == MonthsBefore(leap, mon)
    ensures MonYday(leap)[mon + 1] - MonYday(leap)[mon] == MonthLength(leap, mon)
  {
    assert MonthsBefore(leap, 1) == 31;
    assert MonthsBefore(leap, 2) == MonYday(leap)[2];
    assert MonthsBefore(leap, 3) == MonYday(leap)[3];
    assert MonthsBefore(leap, 4) == MonYday(leap)[4];
    assert MonthsBefore(leap, 5) == MonYday(leap)[5];
    assert MonthsBefore(leap, 6) == MonYday(leap)[6];
    assert MonthsBefore(leap, 7) == MonYday(leap)[7];
    assert MonthsBefore(leap, 8) == MonYday(leap)[8];
    assert MonthsBefore(leap, 9) == MonYday(leap)[9];
    assert MonthsBefore(leap, 10) == MonYday(leap)[10];
    assert MonthsBefore(leap, 11) == MonYday(leap)[11];
  }

  predicate ClockSound(tm: Tm) { 0 <= tm.sec < 60 && 0 <= tm.min < 60 && 0 <= tm.hour < 24 && 0 <= tm.wday < 7 }

  /** The day of the year is that of month and day. */
  predicate DateSound(leap: bool, yday: int, mon: int, mday: int) {
    0 <= mon < 12 && 1 <= mday <= MonYday(leap)[mon + 1] - MonYday(leap)[mon] && yday == MonYday(leap)[mon] + mday - 1
  }

  /** All fields are in range and fit each other. */
  predicate Sound(tm: Tm) {
    ClockSound(tm) && tm.year >= 70 && DateSound(Leap(tm.year + 1900), tm.yday, tm.mon, tm.mday)
  }

  /** __nleap_years. */
  function LeapYears(year: int): int { CDiv(year - 1970 + 1, 4) }

  /** The day of the year, counted from 1970. */
  function DayNumber(year: int, yday: int): int { yday + 365 * (year - 70) + LeapYears(year + 1900) }

  /** ffff_timegm. A leap second and midnight written as 24 o'clock count as the second before. */
  function TimeGm(tm: Tm): int {
    var days := DayNumber(tm.year, tm.yday);
    var res := ((days * 24 + tm.hour) * 60 + tm.min) * 60 + tm.sec;
    if tm.hour >= 24 || tm.sec >= 60 then res - 1 else res
  }

  /** A leap second is the second before it, and 24 o'clock the one before midnight. */
  lemma SecondBefore(tm: Tm)
    requires 0 <= tm.hour < 24 && 0 <= tm.sec < 60
    ensures tm.sec == 59 ==> TimeGm(tm.(sec := 60)) == TimeGm(tm)
    ensures tm.hour == 23 && tm.min == 59 && tm.sec == 59 ==> TimeGm(tm.(hour := 24, min := 0, sec := 0)) == TimeGm(tm)
  {
  }

  /** The month of a day of the year. */
  method FindMonth(days: int, leap: bool) returns (mon: int)
    requires 0 <= days < MonYday(leap)[12]
    ensures 0 <= mon < 12 && MonYday(leap)[mon] <= days < MonYday(leap)[mon + 1]
  {
    var ip := MonYday(leap);
    mon := 11;
    while mon > 0 && days < ip[mon]
      invariant 0 <= mon < 12 && days < ip[mon + 1]
    {
      mon := mon - 1;
    }
  }

  /** ffff_gmtime, for time stamps from 1970 on: a date with all fields in range that
      ffff_timegm takes back to the same time stamp. */
  method GmTime(t: nat) returns (tm: Tm)
    ensures Sound(tm) && TimeGm(tm) == t && tm.wday == (t / 86400 + 4) % 7
    ensures var leap := (tm.year + 1900) % 4 == 0;
            && 0 <= tm.mon < 12 && 1 <= tm.mday <= MonthLength(leap, tm.mon)
            && tm.yday == MonthsBefore(leap, tm.mon) + tm.mday - 1
  {
    var days, rem := t / 86400, t % 86400;
    var hour := rem / 3600;
    rem := rem % 3600;
    var min, sec, wday := rem / 60, rem % 60, (days + 4) % 7;
    var yy, yday := FindYear(days);
    var mon := FindMonth(yday, Leap(yy));
    tm := Tm(sec, min, hour, yday - MonYday(Leap(yy))[mon] + 1, mon, yy - 1900, wday, yday);
    SameDays(yy, yday, days);
    SameSeconds(t);
    TableAddsUp(Leap(yy), mon);
  }

  const JAN_31 := Tm(0, 0, 0, 31, 0, 70, 6, 30)
  const FEB_29 := Tm(59, 59, 23, 29, 1, 100, 2, 59)

  /** The last days of January 1970 and of February 2000. */
  method MonthEnds() returns (jan: Tm, feb: Tm)
    ensures jan == JAN_31 && feb == FEB_29
  {
    jan := GmTime(2592000);
    JanuaryEnds(jan);
    feb := GmTime(951868799);
    FebruaryEnds(feb);
  }

  lemma JanuaryEnds(tm: Tm)
    requires Sound(tm) && TimeGm(tm) == 2592000 && tm.wday == (2592000 / 86400 + 4) % 7
    ensures tm == JAN_31
  {
    assert Sound(JAN_31) && TimeGm(JAN_31) == 2592000;
    OnlyDate(tm, JAN_31);
  }

  lemma FebruaryEnds(tm: Tm)
    requires Sound(tm) && TimeGm(tm) == 951868799 && tm.wday == (951868799 / 86400 + 4) % 7
    ensures tm == FEB_29
  {
    assert LeapYears(2000) == 7 && DayNumber(100, 59) == 11016;
    OnlyDate(tm, FEB_29);
  }

  lemma OnlyDate(a: Tm, b: Tm)
    requires Sound(a) && Sound(b) && TimeGm(a) == TimeGm(b) && a.wday == b.wday
    ensures a == b
  {
    DatesDiffer(a, b);
  }

  lemma SameDays(yy: int, yday: int, days: int)
    requires yy >= 1970 && DaysBefore(yy) + yday == days
    ensures DayNumber(yy - 1900, yday) == days
  {
  }

  lemma SameSeconds(t: nat)
    ensures ((t / 86400 * 24 + t % 86400 / 3600) * 60 + t % 86400 % 3600 / 60) * 60 + t % 86400 % 3600 % 60 == t
  {
  }

  /** Different dates have different time stamps. */
  lemma DatesDiffer(a: Tm, b: Tm)
    requires Sound(a) && Sound(b) && TimeGm(a) == TimeGm(b)
    ensures a.sec == b.sec && a.min == b.min && a.hour == b.hour
    ensures a.year == b.year && a.yday == b.yday && a.mon == b.mon && a.mday == b.mday
  {
    SameClock(DayNumber(a.year, a.yday), a.hour, a.min, a.sec, DayNumber(b.year, b.yday), b.hour, b.min, b.sec);
    DayInYear(a.year, a.yday, a.mon, a.mday);
    DayInYear(b.year, b.yday, b.mon, b.mday);
    OneYear(DayNumber(a.year, a.yday), a.year + 1900, b.year + 1900);
    OneMonth(Leap(a.year + 1900), a.yday, a.mon, a.mday, b.mon, b.mday);
  }

  lemma SameClock(d: int, h: int, m: int, s: int, e: int, i: int, n: int, t: int)
    requires 0 <= h < 24 && 0 <= m < 60 && 0 <= s < 60 && 0 <= i < 24 && 0 <= n < 60 && 0 <= t < 60
    requires ((d * 24 + h) * 60 + m) * 60 + s == ((e * 24 + i) * 60 + n) * 60 + t
    ensures d == e && h == i && m == n && s == t
  {
  }

  lemma DayInYear(year: int, yday: int, mon: int, mday: int)
    requires year >= 70 && DateSound(Leap(year + 1900), yday, mon, mday)
    ensures InYear(DayNumber(year, yday), year + 1900)
  {
    YearAfterYear(year + 1900);
    MonthsUp(Leap(year + 1900), mon + 1, 12);
    MonthsUp(Leap(year + 1900), 0, mon);
  }

  lemma MonthsUp(leap: bool, i: int, j: int)
    requires 0 <= i <= j < 13
    ensures MonYday(leap)[i] <= MonYday(leap)[j] && (i < j ==> MonYday(leap)[i] < MonYday(leap)[j])
    ensures MonYday(leap)[0] == 0 && MonYday(leap)[12] == if leap then 366 else 365
  {
  }

  lemma OneMonth(leap: bool, yday: int, m: int, d: int, n: int, e: int)
    requires DateSound(leap, yday, m, d) && DateSound(leap, yday, n, e)
    ensures m == n && d == e
  {
    if m < n {
      MonthsUp(leap, m + 1, n);
    } else if n < m {
      MonthsUp(leap, n + 1, m);
    }
  }
}
