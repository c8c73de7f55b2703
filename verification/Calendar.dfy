/**
 Dates and times as statements write them, and the seconds since 1970 they stand for. Everything is proved for any rule
 that says which years are leap years; the rule in use is `Gregorian`.
 */
module Calendar {

  type LeapRule = int -> bool

  predicate Gregorian(y: int) {
    y % 4 == 0 && (y % 100 != 0 || y % 400 == 0)
  }

  datatype Date = Date(year: int, month: int, day: int)

  function YearLength(leap: bool): int {
    if leap then 366 else 365
  }

  /** Days from 1 January of year 1 to 1 January of year `y`. */
  function YearStart(rule: LeapRule, y: int): int {
    if y <= 1 then 0 else YearStart(rule, y - 1) + YearLength(rule(y - 1))
  }

  function MonthLength(leap: bool, m: int): int {
    if m == 2 then (if leap then 29 else 28) else if m == 4 || m == 6 || m == 9 || m == 11 then 30 else 31
  }

  /** Days from 1 January to the first of a month. */
  function MonthStart(leap: bool, m: int): int {
    if m <= 1 then 0 else MonthStart(leap, m - 1) + MonthLength(leap, m - 1)
  }

  predicate ValidDate(rule: LeapRule, d: Date) {
    1 <= d.year <= 9999 && 1 <= d.month <= 12 && 1 <= d.day <= MonthLength(rule(d.year), d.month)
  }

  function DaysOf(rule: LeapRule, d: Date): int {
    YearStart(rule, d.year) + MonthStart(rule(d.year), d.month) + d.day - 1
  }

  /** The year, from `y` on, that day `n` lies in. */
  function YearFrom(rule: LeapRule, y: int, n: int): (r: int)
    requires 1 <= y && YearStart(rule, y) <= n
    ensures r >= y && YearStart(rule, r) <= n < YearStart(rule, r + 1)
    decreases n - YearStart(rule, y)
  {
    if n < YearStart(rule, y + 1) then y else YearFrom(rule, y + 1, n)
  }

  function MonthFrom(leap: bool, m: int, n: int): (r: int)
    requires 1 <= m <= 12 && MonthStart(leap, m) <= n < MonthStart(leap, 13)
    ensures m <= r <= 12 && MonthStart(leap, r) <= n < MonthStart(leap, r + 1)
    decreases 13 - m
  {
    if n < MonthStart(leap, m + 1) then m else MonthFrom(leap, m + 1, n)
  }

  lemma MonthsFillYear(leap: bool)
    ensures MonthStart(leap, 13) == YearLength(leap)
  {
    assert MonthStart(true, 13) == 366 && MonthStart(false, 13) == 365;
  }

  /** The month and day of the `k`-th day of year `y`. */
  function DateInYear(leap: bool, y: int, k: int): Date
    requires 0 <= k < MonthStart(leap, 13)
  {
    var m := MonthFrom(leap, 1, k);
    Date(y, m, k - MonthStart(leap, m) + 1)
  }

  function DateOf(rule: LeapRule, n: int): Date
    requires n >= 0
  {
    var y := YearFrom(rule, 1, n);
    MonthsFillYear(rule(y));
    DateInYear(rule(y), y, n - YearStart(rule, y))
  }

  lemma {:induction false} YearStartsGrow(rule: LeapRule, a: int, b: int)
    requires 1 <= a <= b
    ensures YearStart(rule, b) >= YearStart(rule, a) + (b - a)
    decreases b - a
  {
    if a < b { YearStartsGrow(rule, a, b - 1); }
  }

  lemma {:induction false} MonthStartsGrow(leap: bool, a: int, b: int)
    requires 1 <= a <= b
    ensures MonthStart(leap, a) <= MonthStart(leap, b)
    decreases b - a
  {
    if a < b { MonthStartsGrow(leap, a, b - 1); }
  }

  lemma DaysOfDate(rule: LeapRule, n: int)
    requires n >= 0
    ensures DaysOf(rule, DateOf(rule, n)) == n
    ensures DateOf(rule, n).year <= 9999 ==> ValidDate(rule, DateOf(rule, n))
  {
  }

  lemma YearIsUnique(rule: LeapRule, y: int, n: int)
    requires 1 <= y && YearStart(rule, y) <= n < YearStart(rule, y + 1)
    ensures n >= 0 && YearFrom(rule, 1, n) == y
  {
    YearStartsGrow(rule, 1, y);
    var r := YearFrom(rule, 1, n);
    if r < y { YearStartsGrow(rule, r + 1, y); }
    if r > y { YearStartsGrow(rule, y + 1, r); }
  }

  lemma MonthInYear(leap: bool, m: int, n: int)
    requires 1 <= m <= 12 && MonthStart(leap, m) <= n < MonthStart(leap, m + 1)
    ensures 0 <= n < MonthStart(leap, 13)
  {
    MonthStartsGrow(leap, m + 1, 13);
    MonthStartsGrow(leap, 1, m);
  }

  lemma MonthIsUnique(leap: bool, m: int, n: int)
    requires 1 <= m <= 12 && MonthStart(leap, m) <= n < MonthStart(leap, m + 1) && 0 <= n < MonthStart(leap, 13)
    ensures MonthFrom(leap, 1, n) == m
  {
    var r := MonthFrom(leap, 1, n);
    if r < m { MonthStartsGrow(leap, r + 1, m); }
    if r > m { MonthStartsGrow(leap, m + 1, r); }
  }

  lemma DateInYearIs(leap: bool, y: int, m: int, day: int)
    requires 1 <= m <= 12 && 1 <= day <= MonthLength(leap, m)
    ensures var k := MonthStart(leap, m) + day - 1; 0 <= k < MonthStart(leap, 13) && DateInYear(leap, y, k) == Date(y, m, day)
  {
    var k := MonthStart(leap, m) + day - 1;
    MonthInYear(leap, m, k);
    MonthIsUnique(leap, m, k);
    DateOfMonth(leap, y, m, k);
  }

  lemma DateOfMonth(leap: bool, y: int, m: int, k: int)
    requires 0 <= k < MonthStart(leap, 13) && MonthFrom(leap, 1, k) == m
    ensures DateInYear(leap, y, k) == Date(y, m, k - MonthStart(leap, m) + 1)
  {
  }

  /** A day is one date only. */
  lemma DateOfDays(rule: LeapRule, d: Date)
    requires ValidDate(rule, d)
    ensures DaysOf(rule, d) >= 0 && DateOf(rule, DaysOf(rule, d)) == d
  {
    var leap := rule(d.year);
    DateInYearIs(leap, d.year, d.month, d.day);
    MonthsFillYear(leap);
    YearIsUnique(rule, d.year, DaysOf(rule, d));
  }

  /** How many days of the year are over when each month begins. */
  lemma MonthsBegin(leap: bool)
    ensures var extra := if leap then 1 else 0;
      && MonthStart(leap, 1) == 0 && MonthStart(leap, 2) == 31 && MonthStart(leap, 3) == 59 + extra
      && MonthStart(leap, 4) == 90 + extra && MonthStart(leap, 5) == 120 + extra && MonthStart(leap, 6) == 151 + extra
      && MonthStart(leap, 7) == 181 + extra && MonthStart(leap, 8) == 212 + extra && MonthStart(leap, 9) == 243 + extra
      && MonthStart(leap, 10) == 273 + extra && MonthStart(leap, 11) == 304 + extra && MonthStart(leap, 12) == 334 + extra
  {
  }

  // ---------------------------------------------------------------- times of day

  /** Days from 1 January of year 1 to 1 January 1970. */
  const EPOCH := 719162

  /** The seconds at which the years 1 and 1000 begin and the year 9999 ends. */
  const FROM_YEAR_1 := -62135596800
  const FROM_YEAR_1000 := -30610224000
  const TO_YEAR_9999 := 253402300800

  datatype Moment = Moment(date: Date, hour: int, minute: int, second: int)

  predicate ValidMoment(rule: LeapRule, t: Moment) {
    ValidDate(rule, t.date) && 0 <= t.hour < 24 && 0 <= t.minute < 60 && 0 <= t.second < 60
  }

  function SecondsOf(rule: LeapRule, t: Moment): int {
    (DaysOf(rule, t.date) - EPOCH) * 86400 + t.hour * 3600 + t.minute * 60 + t.second
  }

  predicate Representable(rule: LeapRule, ts: int) {
    ts / 86400 + EPOCH >= 0 && DateOf(rule, ts / 86400 + EPOCH).year <= 9999
  }

  function MomentOf(rule: LeapRule, ts: int): Moment
    requires ts / 86400 + EPOCH >= 0
  {
    MomentAt(rule, ts / 86400 + EPOCH, ts % 86400)
  }

  function MomentAt(rule: LeapRule, day: int, s: int): Moment
    requires day >= 0
  {
    Moment(DateOf(rule, day), s / 3600, s / 60 % 60, s % 60)
  }

  lemma SecondsOfMoment(rule: LeapRule, ts: int)
    requires Representable(rule, ts)
    ensures ValidMoment(rule, MomentOf(rule, ts)) && SecondsOf(rule, MomentOf(rule, ts)) == ts
  {
    DaysOfDate(rule, ts / 86400 + EPOCH);
    DayParts(ts % 86400);
  }

  lemma DayParts(s: int)
    requires 0 <= s < 86400
    ensures 0 <= s / 3600 < 24 && s == s / 3600 * 3600 + s / 60 % 60 * 60 + s % 60
  {
    assert s / 60 / 60 == s / 3600;
  }

  lemma DaySplit(day: int, h: int, m: int, s: int, ts: int)
    requires 0 <= h < 24 && 0 <= m < 60 && 0 <= s < 60 && ts == (day - EPOCH) * 86400 + h * 3600 + m * 60 + s
    ensures ts / 86400 + EPOCH == day && ts % 86400 == h * 3600 + m * 60 + s
  {
  }

  lemma PartsOfDay(h: int, m: int, s: int)
    requires 0 <= h && 0 <= m < 60 && 0 <= s < 60
    ensures var n := h * 3600 + m * 60 + s; n / 3600 == h && n / 60 % 60 == m && n % 60 == s
  {
    var n := h * 3600 + m * 60 + s;
    assert n / 60 == h * 60 + m;
  }

  /** A second is one moment only. */
  lemma MomentOfSeconds(rule: LeapRule, t: Moment)
    requires ValidMoment(rule, t)
    ensures Representable(rule, SecondsOf(rule, t)) && MomentOf(rule, SecondsOf(rule, t)) == t
  {
    DateOfDays(rule, t.date);
    SameMoment(rule, SecondsOf(rule, t), DaysOf(rule, t.date), t);
  }

  lemma SameMoment(rule: LeapRule, ts: int, day: int, t: Moment)
    requires 0 <= t.hour < 24 && 0 <= t.minute < 60 && 0 <= t.second < 60
    requires ts == (day - EPOCH) * 86400 + t.hour * 3600 + t.minute * 60 + t.second
    requires day >= 0 && DateOf(rule, day) == t.date
    ensures ts / 86400 + EPOCH == day && MomentOf(rule, ts) == t
  {
    DaySplit(day, t.hour, t.minute, t.second, ts);
    PartsOfDay(t.hour, t.minute, t.second);
  }

  // ---------------------------------------------------------------- the Gregorian rule

  lemma {:induction false} YearStartClosedForm(y: int)
    requires y >= 1
    ensures YearStart(Gregorian, y) == 365 * (y - 1) + (y - 1) / 4 - (y - 1) / 100 + (y - 1) / 400
  {
    if y > 1 {
      YearStartClosedForm(y - 1);
      LeapYearsBefore(y - 1);
    }
  }

  lemma LeapYearsBefore(n: int)
    requires n >= 1
    ensures n / 4 - n / 100 + n / 400 == (n - 1) / 4 - (n - 1) / 100 + (n - 1) / 400 + if Gregorian(n) then 1 else 0
  {
    MultipleOf4(n);
    MultipleOf100(n);
    MultipleOf400(n);
    CenturiesAreFourths(n);
  }

  lemma CenturiesAreFourths(n: int)
    ensures n % 400 == 0 ==> n % 100 == 0
    ensures n % 100 == 0 ==> n % 4 == 0
  {
  }

  lemma MultipleOf4(n: int)
    ensures n / 4 == (n - 1) / 4 + if n % 4 == 0 then 1 else 0
  {
  }

  lemma MultipleOf100(n: int)
    ensures n / 100 == (n - 1) / 100 + if n % 100 == 0 then 1 else 0
  {
  }

  lemma MultipleOf400(n: int)
    ensures n / 400 == (n - 1) / 400 + if n % 400 == 0 then 1 else 0
  {
  }

  lemma EpochIs1970()
    ensures DaysOf(Gregorian, Date(1970, 1, 1)) == EPOCH
  {
    YearStartClosedForm(1970);
  }

  lemma YearAtLeast(rule: LeapRule, n: int, y: int)
    requires n >= 0 && y >= 1
    ensures YearStart(rule, y) <= n <==> y <= YearFrom(rule, 1, n)
  {
    var r := YearFrom(rule, 1, n);
    if r < y { YearStartsGrow(rule, r + 1, y); } else { YearStartsGrow(rule, y, r); }
  }

  lemma DayRange(ts: int)
    ensures ts / 86400 + EPOCH >= 0 <==> ts >= FROM_YEAR_1
    ensures ts / 86400 + EPOCH >= 364877 <==> ts >= FROM_YEAR_1000
    ensures ts / 86400 + EPOCH < 3652059 <==> ts < TO_YEAR_9999
  {
  }

  lemma YearRange(rule: LeapRule, ts: int)
    requires YearStart(rule, 10000) == 3652059 && YearStart(rule, 1000) == 364877
    ensures Representable(rule, ts) <==> FROM_YEAR_1 <= ts < TO_YEAR_9999
    ensures Representable(rule, ts) ==> (MomentOf(rule, ts).date.year >= 1000 <==> ts >= FROM_YEAR_1000)
  {
    DayRange(ts);
    var day := ts / 86400 + EPOCH;
    if day >= 0 {
      YearAtLeast(rule, day, 10000);
      YearAtLeast(rule, day, 1000);
    }
  }

  lemma GregorianYears()
    ensures YearStart(Gregorian, 10000) == 3652059 && YearStart(Gregorian, 1000) == 364877
  {
    YearStartClosedForm(10000);
    YearStartClosedForm(1000);
  }

  /** The times that can be written run from the start of year 1 to the end of year 9999; where years of four digits begin. */
  lemma RepresentableRange(ts: int)
    ensures Representable(Gregorian, ts) <==> FROM_YEAR_1 <= ts < TO_YEAR_9999
    ensures Representable(Gregorian, ts) ==> (MomentOf(Gregorian, ts).date.year >= 1000 <==> ts >= FROM_YEAR_1000)
  {
    GregorianYears();
    YearRange(Gregorian, ts);
  }
}
