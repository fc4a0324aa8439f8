/** The calendar arithmetic of ftpparse.c: seconds since 1970 from a date, the year of a
    number of seconds, and the year of a listing that does not show one.  `long` is
    unbounded; months count from 0. */
module FtpDates {
  import opened Helpers

  /** C's division of a long: it truncates. */
  function Quot(a: int, b: int): int
    requires b > 0
  {
    if a >= 0 then a / b else -((-a) / b)
  }

  function Rem(a: int, b: int): int
    requires b > 0
  {
    if a >= 0 then a % b else -((-a) % b)
  }

  /** totai, with the days left as days: in steps of 4, 100 and 400 years. */
  function TotaiDays(year: int, month: int, mday: int): int {
    var m := if month >= 2 then month - 2 else month + 10;
    InFour(if month >= 2 then year else year - 1, Quot((mday - 1) * 10 + 5 + 306 * m, 10))
  }

  function InFour(year: int, doy: int): int {
    if doy == 365 then InHundred(Quot(year - 3, 4), 1460)
    else InHundred(Quot(year, 4), doy + 365 * Rem(year, 4))
  }

  function InHundred(year: int, day: int): int {
    var day1 := day + 1461 * Rem(year, 25);
    var year1 := Quot(year, 25);
    if day1 == 36524 then InFourHundred(Quot(year1 - 3, 4), 146096)
    else InFourHundred(Quot(year1, 4), day1 + 36524 * Rem(year1, 4))
  }

  function InFourHundred(year: int, day: int): int {
    day + 146097 * (year - 5) + 11017
  }

  function Totai(year: int, month: int, mday: int): int {
    TotaiDays(year, month, mday) * 86400
  }

  // The proleptic Gregorian calendar.

  predicate Leap(y: int) {
    y % 4 == 0 && (y % 100 != 0 || y % 400 == 0)
  }

  function MonthDays(y: int, m: int): nat {
    if m == 1 then (if Leap(y) then 29 else 28)
    else if m == 3 || m == 5 || m == 8 || m == 10 then 30 else 31
  }

  function YearDays(y: int): nat { if Leap(y) then 366 else 365 }

  predicate Valid(y: int, m: int, d: int) {
    1 <= y && 0 <= m < 12 && 1 <= d <= MonthDays(y, m)
  }

  /** Days before the first of January of year y, and before the first of month m. */
  function BeforeYear(y: int): int
    requires 1 <= y
    decreases y
  {
    if y == 1 then 0 else BeforeYear(y - 1) + YearDays(y - 1)
  }

  function BeforeMonth(y: int, m: int): int
    requires 0 <= m <= 12
    decreases m
  {
    if m == 0 then 0 else BeforeMonth(y, m - 1) + MonthDays(y, m - 1)
  }

  function Days(y: int, m: int, d: int): int
    requires Valid(y, m, d)
  {
    BeforeYear(y) + BeforeMonth(y, m) + d - 1
  }

  lemma BeforeMonthTable(y: int, m: int)
    requires 0 <= m < 12
    ensures var leap := if Leap(y) then 1 else 0;
      BeforeMonth(y, m) == [0, 31, 59 + leap, 90 + leap, 120 + leap, 151 + leap, 181 + leap, 212 + leap,
                            243 + leap, 273 + leap, 304 + leap, 334 + leap][m]
  {
    if m > 0 {
      BeforeMonthTable(y, m - 1);
    }
  }

  lemma Step4(n: int)
    ensures n / 4 == (n - 1) / 4 + if n % 4 == 0 then 1 else 0
  {
  }

  lemma Div100(n: int, q: int, r: int)
    requires n == 100 * q + r && 0 <= r < 100
    ensures n / 100 == q && n % 100 == r
  {
  }

  lemma Div400(n: int, q: int, r: int)
    requires n == 400 * q + r && 0 <= r < 400
    ensures n / 400 == q && n % 400 == r
  {
  }

  lemma Step100(n: int)
    ensures n / 100 == (n - 1) / 100 + if n % 100 == 0 then 1 else 0
    ensures n % 100 == 0 ==> n % 4 == 0
  {
    var q, r := n / 100, n % 100;
    Div100(n - 1, if r == 0 then q - 1 else q, if r == 0 then 99 else r - 1);
  }

  lemma Step400(n: int)
    ensures n / 400 == (n - 1) / 400 + if n % 400 == 0 then 1 else 0
    ensures n % 400 == 0 ==> n % 100 == 0
  {
    var q, r := n / 400, n % 400;
    Div400(n - 1, if r == 0 then q - 1 else q, if r == 0 then 399 else r - 1);
    if r == 0 {
      Div100(n, 4 * q, 0);
    }
  }

  lemma {:induction false} BeforeYearClosed(y: int)
    requires 1 <= y
    ensures var n := y - 1; BeforeYear(y) == 365 * n + n / 4 - n / 100 + n / 400
    decreases y
  {
    if y > 1 {
      BeforeYearClosed(y - 1);
      Step4(y - 1);
      Step100(y - 1);
      Step400(y - 1);
    }
  }

  /** A year as 400 a + 100 b + 4 c + d. */
  datatype Cycles = Cycles(a: int, b: int, c: int, d: int) {
    predicate Ok() { 0 <= b < 4 && 0 <= c < 25 && 0 <= d < 4 }
    function Year(): int { 400 * a + 100 * b + 4 * c + d }
  }

  lemma CyclesAre(k: Cycles)
    requires k.Ok()
    ensures var n := k.Year();
      && n / 4 == 100 * k.a + 25 * k.b + k.c && n / 100 == 4 * k.a + k.b && n / 400 == k.a
      && n % 4 == k.d && n % 100 == 4 * k.c + k.d && n % 400 == 100 * k.b + 4 * k.c + k.d
  {
    DivsAre(k.Year(), 100 * k.a + 25 * k.b + k.c, k.d, 4 * k.a + k.b, 4 * k.c + k.d, k.a, 100 * k.b + 4 * k.c + k.d);
  }

  lemma DivsAre(n: int, q4: int, r4: int, q100: int, r100: int, q400: int, r400: int)
    requires n == 4 * q4 + r4 && 0 <= r4 < 4
    requires n == 100 * q100 + r100 && 0 <= r100 < 100
    requires n == 400 * q400 + r400 && 0 <= r400 < 400
    ensures n / 4 == q4 && n % 4 == r4 && n / 100 == q100 && n % 100 == r100 && n / 400 == q400 && n % 400 == r400
  {
  }

  lemma CyclesExist(n: int)
    ensures exists k: Cycles :: k.Ok() && n == k.Year()
  {
    var q := n / 4;
    var r := q / 25;
    var k := Cycles(r / 4, r % 4, q % 25, n % 4);
    assert n == 4 * q + k.d && q == 25 * r + k.c && r == 4 * k.a + k.b;
    assert k.Ok() && n == k.Year();
  }

  ghost function CyclesOf(n: int): (k: Cycles)
    ensures k.Ok() && n == k.Year()
  {
    CyclesExist(n);
    var k: Cycles :| k.Ok() && n == k.Year();
    k
  }

  /** There is only one way. */
  lemma CyclesUnique(k: Cycles)
    requires k.Ok()
    ensures CyclesOf(k.Year()) == k
  {
    CyclesAre(k);
    var l := CyclesOf(k.Year());
    CyclesAre(l);
  }

  /** The year totai and initnow count from the first of March. */
  function MarchYear(y: int, m: int): int { if m >= 2 then y else y - 1 }

  function MarchDay(m: int, d: int): int
    requires 0 <= m < 12 && 1 <= d
  {
    ((d - 1) * 10 + 5 + 306 * (if m >= 2 then m - 2 else m + 10)) / 10
  }

  lemma MarchDayTable(m: int, d: int)
    requires 0 <= m < 12 && 1 <= d
    ensures MarchDay(m, d) == [306, 337, 0, 31, 61, 92, 122, 153, 184, 214, 245, 275][m] + d - 1
  {
  }

  /** Only the 29th of February is day 365 of a March year, and its year ends a cycle of four. */
  lemma MarchDayRange(y: int, m: int, d: int)
    requires Valid(y, m, d)
    ensures 0 <= MarchDay(m, d) <= 365
    ensures MarchDay(m, d) == 365 ==> Leap(y) && m == 1 && d == 29
    ensures MarchDay(m, d) >= 306 <==> m < 2
  {
    MarchDayTable(m, d);
  }

  lemma DaysFromMarch(y: int, m: int, d: int)
    requires Valid(y, m, d)
    ensures var n := MarchYear(y, m);
      Days(y, m, d) == 365 * n + n / 4 - n / 100 + n / 400 + MarchDay(m, d) - 306
  {
    BeforeYearClosed(MarchYear(y, m) + 1);
    BeforeMonthTable(y, m);
    MarchDayTable(m, d);
  }

  /** The days of a date, counted in cycles of 400, 100 and 4 March years. */
  lemma DaysInCycles(y: int, m: int, d: int, k: Cycles)
    requires Valid(y, m, d) && k.Ok() && k.Year() == MarchYear(y, m)
    ensures Days(y, m, d) - 730179
      == MarchDay(m, d) + 365 * k.d + 1461 * k.c + 36524 * k.b + 146097 * (k.a - 5)
  {
    DaysFromMarch(y, m, d);
    CyclesAre(k);
  }

  /** The 29th of February ends a cycle of 4 years, and of 400 if it ends one of 100. */
  lemma LeapDayEnds(y: int, m: int, d: int, k: Cycles)
    requires Valid(y, m, d) && k.Ok() && k.Year() == MarchYear(y, m) && MarchDay(m, d) == 365
    ensures k.d == 3 && (k.c == 24 ==> k.b == 3)
  {
    MarchDayRange(y, m, d);
    CyclesAre(k);
    if k.d == 3 && k.c == 24 {
      var q := 4 * k.a + k.b + 1;
      DivsAre(y, 25 * q, 0, q, 0, if k.b == 3 then k.a + 1 else k.a, if k.b == 3 then 0 else 100 * (k.b + 1));
    }
  }

  /** The division by 4, on a year n or on the first year of its cycle. */
  lemma QuotsAre(n: int, k: Cycles, d: int)
    requires k.Ok() && 0 <= d < 4 && n == k.Year() - k.d + d && 0 <= n
    ensures Quot(n, 4) == 100 * k.a + 25 * k.b + k.c && Rem(n, 4) == d
  {
    CyclesAre(k.(d := d));
  }

  lemma InFourIs(n: int, doy: int, k: Cycles)
    requires k.Ok() && n == k.Year() && 0 <= n && (doy == 365 ==> k.d == 3)
    ensures InFour(n, doy) == InHundred(100 * k.a + 25 * k.b + k.c, doy + 365 * k.d)
  {
    var q := 100 * k.a + 25 * k.b + k.c;
    if doy == 365 {
      QuotsAre(n - 3, k, 0);
      assert InFour(n, 365) == InHundred(q, 1460);
    } else {
      QuotsAre(n, k, k.d);
      assert InFour(n, doy) == InHundred(q, doy + 365 * k.d);
    }
  }

  lemma InHundredIs(q: int, day: int, k: Cycles)
    requires k.Ok() && q == 100 * k.a + 25 * k.b + k.c && 0 <= q
    requires day + 1461 * k.c == 36524 ==> k.b == 3
    ensures InHundred(q, day) == InFourHundred(k.a, day + 1461 * k.c + 36524 * k.b)
  {
    assert Quot(q, 25) == 4 * k.a + k.b && Rem(q, 25) == k.c;
    var r := 4 * k.a + k.b;
    assert Quot(r, 4) == k.a && Rem(r, 4) == k.b && (k.b == 3 ==> Quot(r - 3, 4) == k.a);
  }

  lemma TotaiInCycles(y: int, m: int, d: int, k: Cycles)
    requires Valid(y, m, d) && k.Ok() && k.Year() == MarchYear(y, m)
    ensures TotaiDays(y, m, d)
      == MarchDay(m, d) + 365 * k.d + 1461 * k.c + 36524 * k.b + 146097 * (k.a - 5) + 11017
  {
    var doy := MarchDay(m, d);
    MarchDayRange(y, m, d);
    if doy == 365 {
      LeapDayEnds(y, m, d, k);
    }
    InFourIs(MarchYear(y, m), doy, k);
    InHundredIs(100 * k.a + 25 * k.b + k.c, doy + 365 * k.d, k);
  }

  lemma Epoch()
    ensures Days(1970, 0, 1) == 719162
  {
    BeforeYearClosed(1970);
  }

  /** totai counts the days since 1 January 1970. */
  lemma TotaiIsDayCount(y: int, m: int, d: int)
    requires Valid(y, m, d)
    ensures Totai(y, m, d) == 86400 * (Days(y, m, d) - Days(1970, 0, 1))
  {
    var k := CyclesOf(MarchYear(y, m));
    TotaiInCycles(y, m, d, k);
    DaysInCycles(y, m, d, k);
    Epoch();
  }

  datatype Date = Date(y: int, m: int, d: int)

  function Tomorrow(t: Date): Date
    requires Valid(t.y, t.m, t.d)
  {
    if t.d < MonthDays(t.y, t.m) then t.(d := t.d + 1)
    else if t.m < 11 then Date(t.y, t.m + 1, 1) else Date(t.y + 1, 0, 1)
  }

  lemma DaysTomorrow(t: Date)
    requires Valid(t.y, t.m, t.d)
    ensures var n := Tomorrow(t); Valid(n.y, n.m, n.d) && Days(n.y, n.m, n.d) == Days(t.y, t.m, t.d) + 1
  {
    if t.d == MonthDays(t.y, t.m) && t.m == 11 {
      BeforeMonthTable(t.y, 11);
    }
  }

  /** Consecutive days are 86400 seconds apart, across all month, leap year and century ends. */
  lemma TotaiTomorrow(t: Date)
    requires Valid(t.y, t.m, t.d)
    ensures var n := Tomorrow(t); Totai(n.y, n.m, n.d) == Totai(t.y, t.m, t.d) + 86400
  {
    DaysTomorrow(t);
    TotaiIsDayCount(t.y, t.m, t.d);
    var n := Tomorrow(t);
    TotaiIsDayCount(n.y, n.m, n.d);
  }

  /** initnow: the day number of `now` from 1 March 2000, then its March year, then the
      calendar year. */
  function DayOf(now: int): int {
    (if Rem(now, 86400) < 0 then Quot(now, 86400) - 1 else Quot(now, 86400)) - 11017
  }

  function Era(day: int): int {
    if Rem(day, 146097) < 0 then 5 + Quot(day, 146097) - 1 else 5 + Quot(day, 146097)
  }

  function InEra(day: int): nat {
    if Rem(day, 146097) < 0 then Rem(day, 146097) + 146097 else Rem(day, 146097)
  }

  function YearInEra(day: nat): int {
    var cent := if day == 146096 then 3 else day / 36524;
    var r := if day == 146096 then 36524 else day % 36524;
    var y4, r4 := 25 * cent + r / 1461, r % 1461;
    var y1 := 4 * y4 + if r4 == 1460 then 3 else r4 / 365;
    var doy := if r4 == 1460 then 365 else r4 % 365;
    if (doy * 10 + 5) / 306 >= 10 then y1 + 1 else y1
  }

  function MarchEraYear(day: int): int {
    400 * Era(day) + YearInEra(InEra(day))
  }

  function YearOf(now: int): int {
    MarchEraYear(DayOf(now))
  }

  lemma DayOfIs(now: int, day: int, s: int)
    requires 0 <= s < 86400 && now == 86400 * (day + 11017) + s
    ensures DayOf(now) == day
  {
  }

  lemma EraIs(day: int, era: int, r: int)
    requires 0 <= r < 146097 && day == r + 146097 * (era - 5)
    ensures Era(day) == era && InEra(day) == r
  {
  }

  lemma YearInEraIs(r: int, doy: int, k: Cycles)
    requires k.Ok() && 0 <= doy <= 365 && (doy == 365 ==> k.d == 3 && (k.c == 24 ==> k.b == 3))
    requires r == doy + 365 * k.d + 1461 * k.c + 36524 * k.b
    ensures 0 <= r < 146097
    ensures YearInEra(r) == 100 * k.b + 4 * k.c + k.d + if doy >= 306 then 1 else 0
  {
    var r4 := doy + 365 * k.d;
    var r1 := r4 + 1461 * k.c;
    assert r4 <= 1460 && r1 <= 36524 && (r1 == 36524 ==> k.b == 3);
    assert r4 != 1460 ==> r4 / 365 == k.d && r4 % 365 == doy;
    assert r1 / 1461 == k.c && r1 % 1461 == r4;
    assert r1 != 36524 ==> r / 36524 == k.b && r % 36524 == r1;
  }

  lemma YearOfCycles(now: int, day: int, s: int, doy: int, k: Cycles)
    requires 0 <= s < 86400 && now == 86400 * (day + 11017) + s
    requires k.Ok() && 0 <= doy <= 365 && (doy == 365 ==> k.d == 3 && (k.c == 24 ==> k.b == 3))
    requires day == doy + 365 * k.d + 1461 * k.c + 36524 * k.b + 146097 * (k.a - 5)
    ensures YearOf(now) == k.Year() + if doy >= 306 then 1 else 0
  {
    var r := doy + 365 * k.d + 1461 * k.c + 36524 * k.b;
    YearInEraIs(r, doy, k);
    EraIs(day, k.a, r);
    DayOfIs(now, day, s);
  }

  lemma TotaiParts(y: int, m: int, d: int, total: int) returns (day: int, doy: int, k: Cycles)
    requires Valid(y, m, d) && total == Totai(y, m, d)
    ensures total == 86400 * (day + 11017)
    ensures k.Ok() && 0 <= doy <= 365 && (doy == 365 ==> k.d == 3 && (k.c == 24 ==> k.b == 3))
    ensures day == doy + 365 * k.d + 1461 * k.c + 36524 * k.b + 146097 * (k.a - 5)
    ensures y == k.Year() + if doy >= 306 then 1 else 0
  {
    k := CyclesOf(MarchYear(y, m));
    doy := MarchDay(m, d);
    MarchDayRange(y, m, d);
    if doy == 365 {
      LeapDayEnds(y, m, d, k);
    }
    TotaiInCycles(y, m, d, k);
    day := doy + 365 * k.d + 1461 * k.c + 36524 * k.b + 146097 * (k.a - 5);
  }

  /** initnow undoes totai: at any second of a date it finds the date's year. */
  lemma YearOfDate(y: int, m: int, d: int, now: int)
    requires Valid(y, m, d) && 0 <= now - Totai(y, m, d) < 86400
    ensures YearOf(now) == y
  {
    var total := Totai(y, m, d);
    var day, doy, k := TotaiParts(y, m, d, total);
    YearOfCycles(now, day, now - total, doy, k);
  }

  const DAY := 86400

  /** guesstai's loop, over the times of a day in consecutive years: the first that is less
      than 350 days ago. */
  function Guess(now: int, at: seq<int>, i: nat): int
    requires i <= |at|
    decreases |at| - i
  {
    if i == |at| then 0
    else if now - at[i] < 350 * DAY then at[i]
    else Guess(now, at, i + 1)
  }

  /** The same day in the hundred and one years from `from` on. */
  function InYears(from: int, month: int, mday: int): seq<int> {
    seq(101, i requires 0 <= i < 101 => Totai(from + i, month, mday))
  }

  /** A day that every year has. */
  predicate EveryYear(month: int, mday: int) {
    0 <= month < 12 && 1 <= mday <= MonthDays(1, month)
  }

  lemma LeapOnce(y: int)
    ensures !(Leap(y) && Leap(y + 1))
  {
  }

  lemma BeforeMonthAt(y: int, month: int)
    requires 0 <= month < 12
    ensures BeforeMonth(y, month) == BeforeMonth(1, month) + if month >= 2 && Leap(y) then 1 else 0
  {
    BeforeMonthTable(y, month);
    BeforeMonthTable(1, month);
  }

  lemma DaysYearLater(y: int, month: int, mday: int)
    requires 1 <= y && EveryYear(month, mday)
    ensures Valid(y, month, mday) && Valid(y + 1, month, mday)
    ensures 365 <= Days(y + 1, month, mday) - Days(y, month, mday) <= 366
  {
    BeforeMonthAt(y, month);
    BeforeMonthAt(y + 1, month);
    LeapOnce(y);
  }

  lemma {:induction false} BeforeYearGrows(y: int, z: int)
    requires 1 <= y <= z
    ensures BeforeYear(y) <= BeforeYear(z)
    decreases z - y
  {
    if y < z {
      BeforeYearGrows(y, z - 1);
    }
  }

  lemma InsideYear(y: int, m: int, d: int)
    requires Valid(y, m, d)
    ensures BeforeYear(y) <= Days(y, m, d) < BeforeYear(y + 1)
  {
    BeforeMonthTable(y, m);
  }

  /** Dates of different years come in the order of the years. */
  lemma YearsInOrder(y: int, m: int, d: int, z: int, month: int, mday: int)
    requires Valid(y, m, d) && Valid(z, month, mday) && y < z
    ensures Days(y, m, d) < Days(z, month, mday)
  {
    InsideYear(y, m, d);
    InsideYear(z, month, mday);
    BeforeYearGrows(y + 1, z);
  }

  ghost predicate Yearly(at: seq<int>) {
    forall i :: 0 <= i < |at| - 1 ==> at[i] + 365 * DAY <= at[i + 1] <= at[i] + 366 * DAY
  }

  /** Less than 350 days ago, and at most 16 days ahead. */
  ghost predicate InWindow(t: int, now: int) { now - 350 * DAY < t <= now + 16 * DAY }

  ghost predicate Guessed(t: int, now: int, at: seq<int>) { InWindow(t, now) && t in at }

  lemma {:induction false} GuessFrom(now: int, at: seq<int>, i: nat, last: nat)
    requires Yearly(at) && i <= last < |at| && now < at[last] && at[i] <= now + 16 * DAY
    ensures Guessed(Guess(now, at, i), now, at)
    decreases |at| - i
  {
    if now - at[i] >= 350 * DAY {
      GuessFrom(now, at, i + 1, last);
    }
  }

  lemma TotaiYearly(from: int, month: int, mday: int)
    requires EveryYear(month, mday) && 1 <= from
    ensures Yearly(InYears(from, month, mday))
  {
    var at := InYears(from, month, mday);
    forall i | 0 <= i < 100 ensures at[i] + 365 * DAY <= at[i + 1] <= at[i] + 366 * DAY {
      TotaiYearLater(from + i, month, mday, at[i], at[i + 1]);
    }
  }

  lemma TotaiYearLater(y: int, month: int, mday: int, t: int, t1: int)
    requires 1 <= y && EveryYear(month, mday)
    requires t == Totai(y, month, mday) && t1 == Totai(y + 1, month, mday)
    ensures t + 365 * DAY <= t1 <= t + 366 * DAY
  {
    DaysYearLater(y, month, mday);
    TotaiIsDayCount(y, month, mday);
    TotaiIsDayCount(y + 1, month, mday);
  }

  /** Times on dates of different years are in the order of the years. */
  lemma TotaisInOrder(t: int, y: int, m: int, d: int, t1: int, z: int, month: int, mday: int)
    requires Valid(y, m, d) && Valid(z, month, mday) && y < z
    requires t == Totai(y, m, d) && t1 == Totai(z, month, mday)
    ensures t + DAY <= t1
  {
    YearsInOrder(y, m, d, z, month, mday);
    TotaiIsDayCount(y, m, d);
    TotaiIsDayCount(z, month, mday);
  }

  lemma FirstIsPast(at: seq<int>, from: int, month: int, mday: int, now: int, y: int, m: int, d: int)
    requires EveryYear(month, mday) && 1 <= from < y && at == InYears(from, month, mday)
    requires Valid(y, m, d) && Totai(y, m, d) <= now
    ensures at[0] <= now
  {
    DaysYearLater(from, month, mday);
    TotaisInOrder(at[0], from, month, mday, Totai(y, m, d), y, m, d);
  }

  lemma NextIsAhead(at: seq<int>, from: int, month: int, mday: int, now: int, y: int, m: int, d: int)
    requires EveryYear(month, mday) && 1 <= from < y <= from + 99 && at == InYears(from, month, mday)
    requires Valid(y, m, d) && now < Totai(y, m, d) + DAY
    ensures now < at[y + 1 - from]
  {
    DaysYearLater(y, month, mday);
    TotaisInOrder(Totai(y, m, d), y, m, d, at[y + 1 - from], y + 1, month, mday);
  }

  /** guesstai finds a year for every day but 29 February, for as long as the current year
      is at most 98 past the one it started with; the time it returns is no more than 350
      days ago and no more than 16 days ahead. */
  lemma GuessSucceeds(now: int, currentYear: int, month: int, mday: int, y: int, m: int, d: int)
    requires EveryYear(month, mday) && 2 <= currentYear
    requires Valid(y, m, d) && 0 <= now - Totai(y, m, d) < DAY
    requires currentYear <= y <= currentYear + 98
    ensures var at := InYears(currentYear - 1, month, mday); Guessed(Guess(now, at, 0), now, at)
  {
    var from := currentYear - 1;
    var at := InYears(from, month, mday);
    TotaiYearly(from, month, mday);
    FirstIsPast(at, from, month, mday, now, y, m, d);
    NextIsAhead(at, from, month, mday, now, y, m, d);
    GuessFrom(now, at, 0, y + 1 - from);
  }

  // 29 February.

  /** The year whose 29 February totai takes the 29 February of year y for. */
  ghost function LeapFor(y: int): int
    requires 1 <= y
  {
    var k := CyclesOf(if y < 4 then 0 else y - 4);
    if k.c == 24 && k.b != 3 then 400 * (if k.a == 0 then 1 else k.a) else k.Year() - k.d + 4
  }

  lemma LeapCycle(k: Cycles)
    requires k.Ok() && k.d == 0 && (k.c == 0 ==> k.b == 0)
    ensures Leap(k.Year())
  {
    CyclesAre(k);
  }

  lemma LeapForIs(y: int)
    requires 1 <= y
    ensures var z := LeapFor(y);
      4 <= z && Leap(z) && (z <= y || (z == 4 && y < 4) || (z == 400 && y < 304))
  {
    var k := CyclesOf(if y < 4 then 0 else y - 4);
    if k.c < 24 {
      LeapCycle(Cycles(k.a, k.b, k.c + 1, 0));
    } else if k.b == 3 {
      LeapCycle(Cycles(k.a + 1, 0, 0, 0));
    } else {
      LeapCycle(Cycles(if k.a == 0 then 1 else k.a, 0, 0, 0));
    }
  }

  lemma LeapForLeap(y: int)
    requires 1 <= y && Leap(y)
    ensures LeapFor(y) == y
  {
    assert 4 <= y;
    var k := CyclesOf(y - 4);
    var n := if k.c < 24 then k.(c := k.c + 1)
             else if k.b == 3 then Cycles(k.a + 1, 0, 0, k.d) else Cycles(k.a, k.b + 1, 0, k.d);
    CyclesAre(n);
    assert y == n.Year();
  }

  lemma LeapDayQuot(y: int, k: Cycles)
    requires 1 <= y && k.Ok() && k.Year() == if y < 4 then 0 else y - 4
    ensures Quot(y - 4, 4) == 100 * k.a + 25 * k.b + k.c
  {
    if 4 <= y {
      QuotsAre(y - 4, k, k.d);
    } else {
      CyclesAre(k);
    }
  }

  lemma LeapDayInFour(y: int, q: int, days: int)
    requires Quot(y - 4, 4) == q && InHundred(q, 1460) == days
    ensures Totai(y, 1, 29) == 86400 * days
  {
    assert TotaiDays(y, 1, 29) == InFour(y - 1, 365);
  }

  /** The days of the leap day that ends the cycle of four years; after a century that does not
      end one of 400 years totai takes the last leap day that did, or the first that will. */
  function LeapDays(k: Cycles): int {
    if k.c == 24 && k.b != 3 then 146097 * ((if k.a == 0 then 0 else k.a - 1) - 4) + 11016
    else 1460 + 1461 * k.c + 36524 * k.b + 146097 * (k.a - 5) + 11017
  }

  lemma LeapDayInHundred(k: Cycles, q: int)
    requires k.Ok() && 0 <= k.a && q == 100 * k.a + 25 * k.b + k.c
    ensures InHundred(q, 1460) == LeapDays(k)
  {
    if k.c == 24 && k.b != 3 {
      var r := 4 * k.a + k.b;
      assert Quot(25 * r + 24, 25) == r && Rem(25 * r + 24, 25) == 24;
      assert Quot(r - 3, 4) == if k.a == 0 then 0 else k.a - 1;
    } else {
      InHundredIs(q, 1460, k);
    }
  }

  lemma LeapDayAt(y: int, k: Cycles)
    requires 1 <= y && k.Ok() && k.Year() == if y < 4 then 0 else y - 4
    ensures Totai(y, 1, 29) == 86400 * LeapDays(k)
  {
    var q := Quot(y - 4, 4);
    LeapDayQuot(y, k);
    LeapDayInHundred(k, q);
    LeapDayInFour(y, q, LeapDays(k));
  }

  lemma LeapForDays(y: int) returns (k: Cycles, l: Cycles)
    requires 1 <= y
    ensures k.Ok() && k.Year() == if y < 4 then 0 else y - 4
    ensures l.Ok() && l.Year() == LeapFor(y) - 4 && 0 <= l.a && LeapDays(k) == LeapDays(l)
  {
    k := CyclesOf(if y < 4 then 0 else y - 4);
    l := if k.c == 24 && k.b != 3 then Cycles(if k.a == 0 then 0 else k.a - 1, 3, 24, 0) else k.(d := 0);
  }

  /** t is the time of 29 February of the leap year z; folded. */
  ghost predicate LeapTime(z: int, t: int) {
    4 <= z && forall u {:trigger Unfold(u)} :: Unfold(u) ==> Leap(z) && t == Totai(z, 1, 29)
  }

  /** In a leap year 29 February is its own; in another year totai takes it for that of a leap
      year. */
  lemma TotaiLeapDay(y: int, t: int)
    requires 1 <= y && t == Totai(y, 1, 29)
    ensures LeapTime(LeapFor(y), t)
    ensures Leap(y) ==> LeapFor(y) == y
  {
    if Leap(y) {
      LeapForLeap(y);
    }
    var k, l := LeapForDays(y);
    LeapDayAt(y, k);
    LeapDayAt(LeapFor(y), l);
    LeapForIs(y);
  }

  /** guesstai's loop stops at the first time that is less than 350 days ago. */
  lemma {:induction false} GuessFirst(now: int, at: seq<int>, i: nat) returns (k: nat)
    requires i <= |at|
    ensures i <= k <= |at| && forall j :: i <= j < k ==> at[j] <= now - 350 * DAY
    ensures if k < |at| then Guess(now, at, i) == at[k] && now - 350 * DAY < at[k] else Guess(now, at, i) == 0
    decreases |at| - i
  {
    if i == |at| || now - at[i] < 350 * DAY {
      k := i;
    } else {
      k := GuessFirst(now, at, i + 1);
    }
  }

  /** On the way from one year to another the loop passes 29 February of the years 100, 200
      or 300, which totai takes for that of 400. */
  predicate Astray(from: int, z: int) {
    z < 400 && (Passes(from, z, 100) || Passes(from, z, 200) || Passes(from, z, 300))
  }

  predicate Passes(from: int, z: int, century: int) { from <= century + 3 && from < z && century < z }

  lemma LeapsInOrder(y: int, t: int, z: int, u: int)
    requires LeapTime(y, t) && LeapTime(z, u)
    ensures y < z <==> t < u
  {
    assert Unfold(0);
    if y < z {
      TotaisInOrder(t, y, 1, 29, u, z, 1, 29);
    } else if z < y {
      TotaisInOrder(u, z, 1, 29, t, y, 1, 29);
    }
  }

  lemma DaysApart(z: int, y: int, m: int, d: int)
    requires 1 <= z && Leap(z) && Valid(y, m, d)
    ensures z < y - 1 ==> Days(z, 1, 29) + 365 <= Days(y, m, d)
    ensures y + 1 < z ==> Days(y, m, d) + 365 <= Days(z, 1, 29)
  {
    InsideYear(y, m, d);
    InsideYear(z, 1, 29);
    if z < y - 1 {
      BeforeYearGrows(z + 1, y - 1);
    } else if y + 1 < z {
      BeforeYearGrows(y + 2, z);
    }
  }

  /** A leap day in the window is one of the year before, this year or the next. */
  lemma WindowYears(t: int, z: int, now: int, today: int, y: int, m: int, d: int)
    requires LeapTime(z, t) && InWindow(t, now)
    requires Valid(y, m, d) && today == Totai(y, m, d) && 0 <= now - today < DAY
    ensures y - 1 <= z <= y + 1
  {
    assert Unfold(0);
    TotaiIsDayCount(y, m, d);
    TotaiIsDayCount(z, 1, 29);
    DaysApart(z, y, m, d);
  }

  /** The years totai takes for a later one. */
  lemma StrayYear(s: int, from: int, z: int)
    requires 1 <= from <= s < z && 4 <= z
    ensures LeapFor(s) <= z || Astray(from, z)
  {
    LeapForIs(s);
    if z < LeapFor(s) {
      StrayCentury(s);
    }
  }

  lemma StrayCentury(s: int)
    requires 4 <= s && s < LeapFor(s)
    ensures 100 <= s <= 103 || 200 <= s <= 203 || 300 <= s <= 303
  {
    var k := CyclesOf(s - 4);
    assert k.c == 24 && k.a == 0;
  }

  /** Such a year, if the loop passes one. */
  lemma StrayPassed(from: int, z: int) returns (s: int)
    requires 1 <= from && Astray(from, z)
    ensures from <= s < z && LeapFor(s) == 400
  {
    var c := if Passes(from, z, 100) then 100 else if Passes(from, z, 200) then 200 else 300;
    s := if from < c then c else from;
    StrayLeap(c, s);
  }

  lemma StrayLeap(c: int, s: int)
    requires (c == 100 || c == 200 || c == 300) && c <= s <= c + 3
    ensures LeapFor(s) == 400
  {
    var k := Cycles(0, if c == 100 then 0 else if c == 200 then 1 else 2, 24, s - c);
    assert k.Year() == s - 4;
    CyclesUnique(k);
  }

  lemma HitComesFirst(now: int, at: seq<int>, k: int, j: int)
    requires 0 <= k < |at| && (forall i :: 0 <= i < k ==> at[i] <= now - 350 * DAY)
    requires 0 <= j < |at| && now - 350 * DAY < at[j]
    ensures k <= j
  {
  }

  /** The times of 29 February in a hundred and one years, each that of some leap year. */
  ghost predicate LeapTimes(from: int, at: seq<int>) {
    && 1 <= from && |at| == 101
    && (forall i :: 0 <= i < 101 ==> LeapTime(LeapFor(from + i), at[i]))
    && (forall z, t :: from <= z <= from + 100 && LeapTime(z, t) ==> at[z - from] == t)
  }

  lemma LeapTimesAre(from: int)
    requires 1 <= from
    ensures LeapTimes(from, InYears(from, 1, 29))
  {
    var at := InYears(from, 1, 29);
    forall i | 0 <= i < 101 ensures LeapTime(LeapFor(from + i), at[i]) {
      TotaiLeapDay(from + i, at[i]);
    }
    forall z, t | from <= z <= from + 100 && LeapTime(z, t) ensures at[z - from] == t {
      assert Unfold(0);
    }
  }

  lemma LeapDayHits(now: int, from: int, at: seq<int>, z: int, t: int)
    requires LeapTimes(from, at) && from <= z <= from + 100 && LeapTime(z, t) && InWindow(t, now) && !Astray(from, z)
    ensures Guessed(Guess(now, at, 0), now, at)
  {
    var k := GuessFirst(now, at, 0);
    HitComesFirst(now, at, k, z - from);
    if k < z - from {
      var s := from + k;
      StrayYear(s, from, z);
      LeapsInOrder(z, t, LeapFor(s), at[k]);
    }
    assert at[k] in at;
  }

  lemma LeapDayHit(now: int, from: int, at: seq<int>) returns (z: int, t: int)
    requires LeapTimes(from, at) && Guessed(Guess(now, at, 0), now, at)
    ensures LeapTime(z, t) && InWindow(t, now) && !Astray(from, z)
  {
    var k := GuessFirst(now, at, 0);
    t := at[k];
    z := LeapFor(from + k);
    LeapForIs(from + k);
    if Astray(from, z) {
      var s := StrayPassed(from, z);
      LeapsInOrder(z, t, 400, at[s - from]);
      HitComesFirst(now, at, k, s - from);
    }
  }

  /** For 29 February guesstai answers as it does for other days exactly when there is one
      less than 350 days ago or at most 16 days ahead that the loop does not go astray before. */
  lemma LeapDayExactly(now: int, currentYear: int, y: int, m: int, d: int)
    requires Valid(y, m, d) && 0 <= now - Totai(y, m, d) < DAY
    requires 2 <= currentYear <= y <= currentYear + 98
    ensures var at := InYears(currentYear - 1, 1, 29);
      Guessed(Guess(now, at, 0), now, at) <==>
        exists z :: 4 <= z && Leap(z) && InWindow(Totai(z, 1, 29), now) && !Astray(currentYear - 1, z)
  {
    var from := currentYear - 1;
    var at := InYears(from, 1, 29);
    LeapTimesAre(from);
    if Guessed(Guess(now, at, 0), now, at) {
      var z, t := LeapDayHit(now, from, at);
      assert Unfold(0);
    }
    forall z | 4 <= z && Leap(z) && InWindow(Totai(z, 1, 29), now) && !Astray(from, z)
      ensures Guessed(Guess(now, at, 0), now, at)
    {
      var t := Totai(z, 1, 29);
      WindowYears(t, z, now, Totai(y, m, d), y, m, d);
      LeapDayHits(now, from, at, z, t);
    }
  }

  lemma LeapDayTimes()
    ensures Totai(2003, 5, 1) == 1054425600 && Totai(2004, 1, 29) == 1078012800
    ensures Totai(2002, 1, 29) == 951782400 && Totai(2003, 1, 29) == 951782400
  {
  }

  /** It can be off: in June 2003 it answers 29 February 2004. */
  lemma LeapDayMissed()
    ensures Guess(Totai(2003, 5, 1), InYears(2002, 1, 29), 0) == Totai(2004, 1, 29)
    ensures Totai(2004, 1, 29) > Totai(2003, 5, 1) + 16 * DAY
  {
    var now, at := Totai(2003, 5, 1), InYears(2002, 1, 29);
    LeapDayTimes();
    assert at[0] == 951782400 && at[1] == 951782400 && at[2] == 1078012800;
    assert Guess(now, at, 0) == Guess(now, at, 1) == Guess(now, at, 2) == at[2];
  }

  /** It goes astray in the year 104, for a loop that starts in 100. */
  lemma LeapDayAstray()
    ensures Guess(Totai(104, 1, 15), InYears(100, 1, 29), 0) == Totai(400, 1, 29)
    ensures InWindow(Totai(104, 1, 29), Totai(104, 1, 15))
  {
    assert InYears(100, 1, 29)[0] == Totai(400, 1, 29);
  }

  /** gmtime() of time zero. */
  datatype Tm = Tm(year: int, mon: int, mday: int, hour: int, min: int, sec: int)

  /** The static variables. */
  class Clock {
    var needBase: bool
    var base: int
    var now: int
    var needYear: bool
    var currentYear: int

    constructor ()
      ensures needBase && needYear
    {
      needBase, needYear := true, true;
    }

    /** What base is, or will be once it is worked out. */
    ghost function Base(zero: Tm): int
      reads this
    {
      if needBase
      then -(Totai(zero.year + 1900, zero.mon, zero.mday) + zero.hour * 3600 + zero.min * 60 + zero.sec)
      else base
    }

    /** The base is worked out once: minus the seconds from the epoch to the time that gmtime
        takes zero for, so that it is 0 on a POSIX system and times are POSIX times. */
    method InitBase(zero: Tm)
      modifies `base, `needBase
      ensures !needBase && base == old(Base(zero))
      ensures !old(needBase) ==> base == old(base)
      ensures old(needBase) && Valid(zero.year + 1900, zero.mon, zero.mday) ==>
        -base == 86400 * (Days(zero.year + 1900, zero.mon, zero.mday) - Days(1970, 0, 1))
          + zero.hour * 3600 + zero.min * 60 + zero.sec
      ensures old(needBase) && zero == Tm(70, 0, 1, 0, 0, 0) ==> base == 0
    {
      if !needBase {
        return;
      }
      if Valid(zero.year + 1900, zero.mon, zero.mday) {
        TotaiIsDayCount(zero.year + 1900, zero.mon, zero.mday);
      }
      base := -(Totai(zero.year + 1900, zero.mon, zero.mday) + zero.hour * 3600 + zero.min * 60 + zero.sec);
      needBase := false;
    }

    /** The year is worked out once and kept. */
    method InitNow(zero: Tm, time: int)
      modifies this
      ensures !needBase && base == old(Base(zero)) && now == time - base
      ensures !needYear && currentYear == if old(needYear) then YearOf(now) else old(currentYear)
    {
      InitBase(zero);
      now := time - base;
      if needYear {
        currentYear := YearOf(now);
        needYear := false;
      }
    }

    method GuessTai(zero: Tm, time: int, month: int, mday: int) returns (t: int)
      modifies this
      ensures !needBase && base == old(Base(zero)) && now == time - base
      ensures !needYear && currentYear == if old(needYear) then YearOf(now) else old(currentYear)
      ensures t == Guess(now, InYears(currentYear - 1, month, mday), 0)
    {
      InitNow(zero, time);
      var year := currentYear - 1;
      ghost var at := InYears(year, month, mday);
      while year < currentYear + 100
        invariant currentYear - 1 <= year <= currentYear + 100
        invariant Guess(now, at, year - currentYear + 1) == Guess(now, at, 0)
      {
        t := Totai(year, month, mday);
        if now - t < 350 * DAY {
          return t;
        }
        year := year + 1;
      }
      return 0;
    }
  }
}
