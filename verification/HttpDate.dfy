/**
  The date arithmetic behind HTTP dates: Gauss' formula from a Gregorian date to
  seconds, and its inverse from seconds to a date.
 */
module HttpDate {

  /** `month` counts from 0, as in the source. */
  datatype Date = Date(year: int, month: int, day: int)

  datatype Clock = Clock(hour: int, min: int, sec: int)

  predicate Leap(y: int) {
    y % 4 == 0 && (y % 100 != 0 || y % 400 == 0)
  }

  /** The calendar: the days of a month. */
  function DaysIn(y: int, month: int): int {
    if month == 1 then (if Leap(y) then 29 else 28)
    else if month == 3 || month == 5 || month == 8 || month == 10 then 30 else 31
  }

  predicate Gregorian(d: Date) {
    d.year >= 1 && 0 <= d.month < 12 && 1 <= d.day <= DaysIn(d.year, d.month)
  }

  function NextDay(d: Date): Date {
    if d.day < DaysIn(d.year, d.month) then d.(day := d.day + 1)
    else if d.month < 11 then Date(d.year, d.month + 1, 1)
    else Date(d.year + 1, 0, 1)
  }

  predicate Earlier(a: Date, b: Date) {
    a.year < b.year || (a.year == b.year && (a.month < b.month || (a.month == b.month && a.day < b.day)))
  }

  const EPOCH := Date(1970, 0, 1)

  // ----- from a date to seconds

  const MONTH_DAYS: seq<int> := [31, 28, 31, 30, 31, 30, 31, 31, 30, 31, 30, 31]

  /** The checks of ngx_parse_http_time on the fields that it has read. */
  predicate Accepted(d: Date, c: Clock)
    requires 0 <= d.month < 12
  {
    && c.hour <= 23 && c.min <= 59 && c.sec <= 59
    && if d.day == 29 && d.month == 1 then !(d.year % 4 != 0 || (d.year % 100 == 0 && d.year % 400 != 0))
       else d.day <= MONTH_DAYS[d.month]
  }

  /** Days in whole years since March 1, 1 BC. */
  function YearDays(y: int): int {
    365 * y + y / 4 - y / 100 + y / 400
  }

  /** Days of the year before a month, which counts from 1 for March. */
  function MonthDays(m: int): int {
    367 * m / 12 - 30
  }

  /** Gauss' formula: days since 1970. */
  function Days(d: Date): int {
    var month := if d.month - 1 <= 0 then d.month + 11 else d.month - 1;
    var year := if d.month - 1 <= 0 then d.year - 1 else d.year;
    YearDays(year) + MonthDays(month) + d.day - 1 - 719527 + 31 + 28
  }

  /** A number as uint64_t. */
  function Unsigned(n: int): int {
    n % 0x1_0000_0000_0000_0000
  }

  /** A uint64_t as a signed 64-bit time_t. */
  function Signed(n: int): (r: int)
    ensures 0 <= n < 0x1_0000_0000_0000_0000 ==> -0x8000_0000_0000_0000 <= r < 0x8000_0000_0000_0000
  {
    if n >= 0x8000_0000_0000_0000 then n - 0x1_0000_0000_0000_0000 else n
  }

  function Seconds(d: Date, c: Clock): int {
    Signed(Unsigned(Unsigned(Days(d)) * 86400 + c.hour * 3600 + c.min * 60 + c.sec))
  }

  /** One more year is 365 days, or 366 when it ends with the February of a leap year. */
  lemma YearStep(y: int)
    ensures YearDays(y + 1) == YearDays(y) + (if Leap(y + 1) then 366 else 365)
  {
    var z := y + 1;
    assert z / 4 == y / 4 + if z % 4 == 0 then 1 else 0;
    assert z / 100 == y / 100 + if z % 100 == 0 then 1 else 0;
    assert z / 400 == y / 400 + if z % 400 == 0 then 1 else 0;
    assert z % 400 == 0 ==> z % 100 == 0;
    assert z % 100 == 0 ==> z % 4 == 0;
  }

  /** A month has as many days as the calendar says. */
  lemma NextMonth(y: int, m: int, e: Date)
    requires 0 <= m < 12 && e == if m < 11 then Date(y, m + 1, 1) else Date(y + 1, 0, 1)
    ensures Days(e) == Days(Date(y, m, 1)) + DaysIn(y, m)
  {
    if m == 1 {
      YearStep(y - 1);
    }
  }

  /** Counting day by day: the formula is 0 on the epoch and one more on the next day. */
  lemma DayByDay(d: Date, e: Date)
    requires Gregorian(d) && e == NextDay(d)
    ensures Gregorian(e) && Days(e) == Days(d) + 1
  {
    if d.day >= DaysIn(d.year, d.month) {
      NextMonth(d.year, d.month, e);
    }
    InMonth(d);
    InMonth(e);
  }

  lemma InMonth(d: Date)
    ensures Days(d) == Days(Date(d.year, d.month, 1)) + d.day - 1
  {
  }

  lemma EpochIsZero()
    ensures Days(EPOCH) == 0
  {
  }

  function After(d: Date, n: nat): Date {
    if n == 0 then d else NextDay(After(d, n - 1))
  }

  ghost predicate HasNumber(d: Date, n: int) {
    (Gregorian(d) && Days(d) == n) == true
  }

  lemma NextNumber(d: Date, n: int)
    requires HasNumber(d, n)
    ensures HasNumber(NextDay(d), n + 1)
  {
    DayByDay(d, NextDay(d));
  }

  lemma {:induction false} NumberAfter(d: Date, n: nat, k: int)
    requires HasNumber(d, k)
    ensures HasNumber(After(d, n), k + n)
  {
    if n > 0 {
      NumberAfter(d, n - 1, k);
      NextNumber(After(d, n - 1), k + n - 1);
    }
  }

  /** The date n days after another has a number n larger. */
  lemma DaysAfter(d: Date, n: nat)
    requires Gregorian(d)
    ensures Gregorian(After(d, n)) && Days(After(d, n)) == Days(d) + n
  {
    NumberAfter(d, n, Days(d));
    assert HasNumber(After(d, n), Days(d) + n);
  }

  lemma NextYear(y: int)
    ensures Days(Date(y + 1, 0, 1)) == Days(Date(y, 0, 1)) + (if Leap(y) then 366 else 365)
  {
    YearStep(y - 1);
  }

  lemma {:induction false} YearsApart(y: int, z: int)
    requires y <= z
    ensures Days(Date(y, 0, 1)) + 365 * (z - y) <= Days(Date(z, 0, 1))
    decreases z - y
  {
    if y < z {
      YearsApart(y, z - 1);
      NextYear(z - 1);
    }
  }

  lemma InYear(d: Date)
    requires Gregorian(d)
    ensures Days(Date(d.year, 0, 1)) <= Days(d) < Days(Date(d.year + 1, 0, 1))
  {
    YearStep(d.year - 1);
  }

  lemma {:induction false} MonthsApart(y: int, m: int, n: int)
    requires 0 <= m < n < 12
    ensures Days(Date(y, m, 1)) + DaysIn(y, m) <= Days(Date(y, n, 1))
    decreases n - m
  {
    NextMonth(y, n - 1, Date(y, n, 1));
    if m < n - 1 {
      MonthsApart(y, m, n - 1);
    }
  }

  lemma MonotoneInYear(a: Date, b: Date)
    requires Gregorian(a) && Gregorian(b) && Earlier(a, b) && a.year == b.year
    ensures Days(a) < Days(b)
  {
    if a.month < b.month {
      MonthsApart(a.year, a.month, b.month);
    }
  }

  /** Later dates have larger numbers. */
  lemma Monotone(a: Date, b: Date)
    requires Gregorian(a) && Gregorian(b) && Earlier(a, b)
    ensures Days(a) < Days(b)
  {
    if a.year < b.year {
      InYear(a);
      InYear(b);
      YearsApart(a.year + 1, b.year);
    } else {
      MonotoneInYear(a, b);
    }
  }

  /** A time stands for one date only. */
  lemma OneDate(a: Date, b: Date)
    requires Gregorian(a) && Gregorian(b) && Days(a) == Days(b)
    ensures a == b
  {
    if Earlier(a, b) {
      Monotone(a, b);
    } else if Earlier(b, a) {
      Monotone(b, a);
    }
  }

  /** Every date from the epoch on is reached by counting its number of days. */
  lemma CountedFromEpoch(d: Date)
    requires Gregorian(d) && d.year >= 1970
    ensures Days(d) >= 0 && d == After(EPOCH, Days(d))
  {
    EpochIsZero();
    InYear(d);
    YearsApart(1970, d.year);
    DaysAfter(EPOCH, Days(d));
    OneDate(d, After(EPOCH, Days(d)));
  }

  /** The day of the week, counted from Sunday: the epoch is a Thursday, and the next day has the next one. */
  function WeekdayAfter(n: nat): (w: int)
    ensures 0 <= w < 7
  {
    if n == 0 then 4 else if WeekdayAfter(n - 1) == 6 then 0 else WeekdayAfter(n - 1) + 1
  }

  lemma {:induction false} WeekdayCount(n: nat)
    ensures WeekdayAfter(n) == (4 + n) % 7
  {
    if n > 0 {
      WeekdayCount(n - 1);
    }
  }

  /** Nothing wraps around in four-digit years: the time is the exact number of seconds. */
  lemma Exact(d: Date, c: Clock)
    requires Gregorian(d) && d.year <= 9999 && 0 <= c.hour <= 23 && 0 <= c.min <= 59 && 0 <= c.sec <= 59
    ensures Seconds(d, c) == Days(d) * 86400 + c.hour * 3600 + c.min * 60 + c.sec
  {
    DaysBounds(d);
    WrapOnce(Days(d), c.hour * 3600 + c.min * 60 + c.sec);
  }

  lemma DaysBounds(d: Date)
    requires Gregorian(d) && d.year <= 9999
    ensures -719162 <= Days(d) <= 2932896 && (d.year >= 1970 ==> Days(d) >= 0)
  {
    InYear(d);
    YearsApart(1, d.year);
    YearsApart(d.year + 1, 10000);
    FirstAndLast();
    if d.year >= 1970 {
      YearsApart(1970, d.year);
      EpochIsZero();
    }
  }

  lemma FirstAndLast()
    ensures Days(Date(1, 0, 1)) == -719162 && Days(Date(10000, 0, 1)) == 2932897
  {
  }

  lemma WrapOnce(n: int, rest: int)
    requires -1000000 <= n <= 10000000 && 0 <= rest < 86400
    ensures Signed(Unsigned(Unsigned(n) * 86400 + rest)) == n * 86400 + rest
  {
    if n < 0 {
      WrapAdd(0, n + 0x1_0000_0000_0000_0000);
      WrapAdd(86400, n * 86400 + rest + 0x1_0000_0000_0000_0000);
    }
  }

  /** Multiples of the word size do not matter. */
  lemma WrapAdd(k: nat, v: int)
    requires 0 <= v < 0x1_0000_0000_0000_0000
    ensures Unsigned((k - 1) * 0x1_0000_0000_0000_0000 + v) == v
  {
  }

  /** Apart from day 0, the checks let exactly the dates of the calendar through. */
  lemma AcceptedIsGregorian(d: Date, c: Clock)
    requires 0 <= d.month < 12 && d.year >= 1 && d.day >= 0
    requires 0 <= c.hour && 0 <= c.min && 0 <= c.sec
    ensures Accepted(d, c) <==> (Gregorian(d) || d.day == 0) && c.hour <= 23 && c.min <= 59 && c.sec <= 59
  {
  }

  // ----- from seconds to a date

  /** ngx_gmtime */
  method Gmtime(t0: int) returns (d: Date, c: Clock, wday: int)
    ensures Gregorian(d)
    ensures 0 <= t0 < (2932896 + 1) * 86400 ==> Days(d) * 86400 + c.hour * 3600 + c.min * 60 + c.sec == t0
    ensures 0 <= c.hour <= 23 && 0 <= c.min <= 59 && 0 <= c.sec <= 59
    ensures t0 < 0 ==> d == EPOCH && c == Clock(0, 0, 0)
    ensures t0 >= (2932896 + 1) * 86400 ==> d == Date(9999, 11, 31) && c == Clock(23, 59, 59)
    ensures Days(d) >= 0 && wday == WeekdayAfter(Days(d))
  {
    var t := if t0 < 0 then 0 else t0;
    var days := t / 86400;
    var sec := t % 86400;
    if days > 2932896 {
      days := 2932896;
      sec := 86399;
    }
    wday := (4 + days) % 7;
    c := Clock(sec / 3600, sec % 3600 / 60, sec % 3600 % 60);
    d := FromDays(days);
    WeekdayCount(days);
    if days == 0 {
      EpochIsZero();
      OneDate(d, EPOCH);
    } else if days == 2932896 {
      LastDay();
      OneDate(d, Date(9999, 11, 31));
    }
  }

  lemma LastDay()
    ensures Days(Date(9999, 11, 31)) == 2932896
  {
  }

  /** The number of the year since March 1, 1 BC, at most one too large. */
  function YearOf(n: int): int {
    (n + 2) * 400 / 146097
  }

  lemma YearBounds(n: int)
    requires n >= 0
    ensures var y := YearOf(n); YearDays(y) - 2 <= n < YearDays(y + 1)
  {
    var y := YearOf(n);
    assert 146097 * y <= (n + 2) * 400 < 146097 * (y + 1);
  }

  /** The days before a month, when March is the first. */
  lemma MonthOf(yday: int)
    requires 0 <= yday < 366
    ensures var mon := (yday + 31) * 10 / 306;
      && 1 <= mon <= 12 && (yday >= 306 <==> mon >= 11)
      && MonthDays(mon) <= yday < MonthDays(mon + 1)
  {
    var mon := (yday + 31) * 10 / 306;
    assert 306 * mon <= (yday + 31) * 10 < 306 * mon + 306;
    assert 1 <= mon <= 12;
    if mon <= 6 {
      assert mon == 1 || mon == 2 || mon == 3 || mon == 4 || mon == 5 || mon == 6;
    } else {
      assert mon == 7 || mon == 8 || mon == 9 || mon == 10 || mon == 11 || mon == 12;
    }
  }

  /** The date of a day in a year that starts with March. */
  lemma FromMarch(year: int, mon: int, mday: int, n: int)
    requires year >= 1 && 1 <= mon <= 12 && 1 <= mday <= MonthDays(mon + 1) - MonthDays(mon)
    requires n == YearDays(year) + MonthDays(mon) + mday - 1 && n < YearDays(year + 1)
    ensures var d := if mon >= 11 then Date(year + 1, mon - 11, mday) else Date(year, mon + 1, mday);
      Gregorian(d) && Days(d) == n + 31 + 28 - 719527
  {
    YearStep(year);
    if mon <= 6 {
      assert mon == 1 || mon == 2 || mon == 3 || mon == 4 || mon == 5 || mon == 6;
    } else {
      assert mon == 7 || mon == 8 || mon == 9 || mon == 10 || mon == 11 || mon == 12;
    }
  }

  /** The year that starts with March, and the day in it. */
  method MarchYear(n: int) returns (year: int, yday: int)
    requires n >= 400
    ensures n == YearDays(year) + yday && 0 <= yday < 366 && n < YearDays(year + 1) && year >= 1
  {
    year := YearOf(n);
    YearBounds(n);
    YearStep(year);
    YearStep(year - 1);
    yday := n - YearDays(year);
    if yday < 0 {
      yday := 365 + (if Leap(year) then 1 else 0) + yday;
      year := year - 1;
    }
  }

  /** The second half of ngx_gmtime: the date of a day number. */
  method FromDays(n0: nat) returns (d: Date)
    requires n0 <= 2932896
    ensures Gregorian(d) && Days(d) == n0
  {
    var n := n0 - (31 + 28) + 719527;
    var year, yday := MarchYear(n);
    var mon := (yday + 31) * 10 / 306;
    var mday := yday - MonthDays(mon) + 1;
    MonthOf(yday);
    FromMarch(year, mon, mday, n);
    if yday >= 306 {
      year := year + 1;
      mon := mon - 10;
    } else {
      mon := mon + 2;
    }
    // the month that is returned counts from 1
    d := Date(year, mon - 1, mday);
  }

  /** A date that is turned into a time and back is the same date. */
  method RoundTrip(d: Date, c: Clock) returns (d': Date, c': Clock)
    requires Gregorian(d) && 1970 <= d.year <= 9999 && 0 <= c.hour <= 23 && 0 <= c.min <= 59 && 0 <= c.sec <= 59
    ensures d' == d && c' == c
  {
    Exact(d, c);
    DaysBounds(d);
    var wday;
    d', c', wday := Gmtime(Seconds(d, c));
    SplitClock(Days(d), c, Days(d'), c');
    OneDate(d, d');
  }

  lemma SplitClock(n: int, c: Clock, n': int, c': Clock)
    requires 0 <= c.hour <= 23 && 0 <= c.min <= 59 && 0 <= c.sec <= 59
    requires 0 <= c'.hour <= 23 && 0 <= c'.min <= 59 && 0 <= c'.sec <= 59
    requires n * 86400 + c.hour * 3600 + c.min * 60 + c.sec == n' * 86400 + c'.hour * 3600 + c'.min * 60 + c'.sec
    ensures n == n' && c == c'
  {
  }
}
