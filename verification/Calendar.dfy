/**
  The two day-to-date algorithms, against the proleptic Gregorian calendar as
  section 3.2.1 of ISO 8601:2004 defines it: leap years, month lengths and the
  successor of a day.  All divisions floor; every divisor is positive.
*/
module Calendar {

  datatype Date = Date(year: int, month: int, day: int)

  // ----- the calendar -------------------------------------------------------------

  predicate Leap(y: int) { y % 4 == 0 && (y % 100 != 0 || y % 400 == 0) }

  function DaysIn(y: int, m: int): int {
    if m == 2 then (if Leap(y) then 29 else 28)
    else if m == 4 || m == 6 || m == 9 || m == 11 then 30
    else 31
  }

  predicate Valid(d: Date) { 1 <= d.month <= 12 && 1 <= d.day <= DaysIn(d.year, d.month) }

  function Tomorrow(d: Date): Date {
    if d.day < DaysIn(d.year, d.month) then Date(d.year, d.month, d.day + 1)
    else if d.month < 12 then Date(d.year, d.month + 1, 1)
    else Date(d.year + 1, 1, 1)
  }

  // ----- the algorithms -------------------------------------------------------------

  function CivilToJd(t: Date): int {
    var a := (14 - t.month) / 12;
    var yy := t.year + 4800 - a;
    var mm := t.month + 12 * a - 3;
    t.day + (153 * mm + 2) / 5 + 365 * yy + yy / 4 - yy / 100 + yy / 400 - 32045
  }

  function JdToCivil(jd: int): Date {
    var a := jd + 32044;
    var b := (4 * a + 3) / 146097;
    var c := a - 146097 * b / 4;
    var d := (4 * c + 3) / 1461;
    var e := c - 1461 * d / 4;
    var m := (5 * e + 2) / 153;
    Date(100 * b + d - 4800 + m / 10, m + 3 - 12 * (m / 10), e - (153 * m + 2) / 5 + 1)
  }

  /** The date of a day counted from 1 January 1970. */
  function DateOfDays(days: int): Date {
    var z := days + 719468;
    var era := z / 146097;
    DateInEra(era, z - era * 146097)
  }

  function DateInEra(era: int, doe: int): Date {
    var yoe := (doe - doe / 1460 + doe / 36524 - doe / 146096) / 365;
    DateInYear(era, yoe, doe - (365 * yoe + yoe / 4 - yoe / 100))
  }

  function DateInYear(era: int, yoe: int, doy: int): Date {
    var mp := (5 * doy + 2) / 153;
    var d := doy - (153 * mp + 2) / 5 + 1;
    var m := if mp < 10 then mp + 3 else mp - 9;
    Date(yoe + era * 400 + if m <= 2 then 1 else 0, m, d)
  }

  /** `__lava_today` without its printing. */
  function DateOfSeconds(secs: int): Date { DateOfDays(secs / 86400) }

  // ----- years that start in March ----------------------------------------------------

  /** Day `e` of the year that starts on 1 March of year `100 * b + d - 4800`. */
  datatype Marched = Marched(b: int, d: int, e: int)

  function LastDay(b: int, d: int): int { if (d + 1) % 4 == 0 && (d != 99 || (b + 1) % 4 == 0) then 365 else 364 }

  predicate Sound(x: Marched) { 0 <= x.d < 100 && 0 <= x.e <= LastDay(x.b, x.d) }

  function Day(x: Marched): int { 36524 * x.b + x.b / 4 + 365 * x.d + x.d / 4 + x.e }

  function MonthOf(e: int): int { (5 * e + 2) / 153 }

  function ToDate(x: Marched): Date {
    var m := MonthOf(x.e);
    Date(100 * x.b + x.d - 4800 + m / 10, m + 3 - 12 * (m / 10), x.e - (153 * m + 2) / 5 + 1)
  }

  function Unpack(a: int): Marched {
    var b := (4 * a + 3) / 146097;
    var c := a - 146097 * b / 4;
    var d := (4 * c + 3) / 1461;
    Marched(b, d, c - 1461 * d / 4)
  }

  lemma Quarters(b: int)
    ensures 146097 * b / 4 == 36524 * b + b / 4
    ensures 1461 * b / 4 == 365 * b + b / 4
  {
  }

  /** Unpacking finds a sound day of a March year for every day number. */
  lemma UnpackSound(a: int)
    ensures Sound(Unpack(a)) && Day(Unpack(a)) == a
  {
    var b := (4 * a + 3) / 146097;
    Quarters(b);
    var c := a - 146097 * b / 4;
    assert 0 <= c <= 36523 + if (b + 1) % 4 == 0 then 1 else 0;
    var d := (4 * c + 3) / 1461;
    Quarters(d);
    assert 0 <= d < 100;
  }

  /** And it finds the one it was made from. */
  lemma UnpackExact(x: Marched)
    requires Sound(x)
    ensures Unpack(Day(x)) == x
  {
    var c := 365 * x.d + x.d / 4 + x.e;
    var a := 36524 * x.b + x.b / 4 + c;
    assert a == Day(x);
    assert 0 <= c <= 36523 + if (x.b + 1) % 4 == 0 then 1 else 0;
    assert (4 * a + 3) / 146097 == x.b;
    Quarters(x.b);
    assert (4 * c + 3) / 1461 == x.d;
    Quarters(x.d);
  }

  lemma MarchLeap(b: int, d: int)
    requires 0 <= d < 100
    ensures Leap(100 * b + d - 4799) <==> LastDay(b, d) == 365
  {
    var y := 100 * b + d - 4799;
    if d < 99 {
      assert y == 100 * (b - 48) + (d + 1);
      assert y / 100 == b - 48 && y % 100 == d + 1;
      assert y == 4 * (25 * (b - 48)) + (d + 1);
      assert y / 4 == 25 * (b - 48) + (d + 1) / 4;
    } else {
      assert y == 100 * (b - 47);
      assert y % 100 == 0 && y % 4 == 0;
      var k := (b + 1) / 4;
      assert y == 400 * (k - 12) + 100 * (b + 1 - 4 * k);
    }
  }

  /** A sound day of a March year is a valid date, and the day number of that date. */
  lemma ToDateValid(x: Marched)
    requires Sound(x)
    ensures Valid(ToDate(x))
  {
    MarchLeap(x.b, x.d);
    var m := MonthOf(x.e);
    assert 0 <= m <= 11;
  }

  lemma YearTerms(b: int, d: int)
    requires 0 <= d < 100
    ensures var yy := 100 * b + d; yy / 4 == 25 * b + d / 4 && yy / 100 == b && yy / 400 == b / 4
  {
  }

  lemma ToDateDay(x: Marched)
    requires Sound(x)
    ensures CivilToJd(ToDate(x)) == Day(x) - 32044
  {
    var m := MonthOf(x.e);
    assert 0 <= m <= 11;
    YearTerms(x.b, x.d);
    assert (14 - ToDate(x).month) / 12 == m / 10;
  }

  /** Every valid date is a sound day of some March year. */
  lemma FromDate(t: Date) returns (x: Marched)
    requires Valid(t)
    ensures Sound(x) && ToDate(x) == t
  {
    var a := (14 - t.month) / 12;
    assert a == if t.month <= 2 then 1 else 0;
    var yy := t.year + 4800 - a;
    var mm := t.month + 12 * a - 3;
    x := Marched(yy / 100, yy % 100, (153 * mm + 2) / 5 + t.day - 1);
    MarchLeap(x.b, x.d);
    assert 0 <= mm <= 11;
    assert a == 1 ==> t.year == 100 * x.b + x.d - 4799;
    assert MonthOf(x.e) == mm;
  }

  // ----- what the algorithms compute -------------------------------------------------------

  lemma JdToCivilUnpacks(jd: int)
    ensures JdToCivil(jd) == ToDate(Unpack(jd + 32044))
  {
  }

  /** Day number to date and back, for every integer. */
  lemma JdRoundTrip(jd: int)
    ensures Valid(JdToCivil(jd)) && CivilToJd(JdToCivil(jd)) == jd
  {
    hide *;
    var x := Unpack(jd + 32044);
    UnpackSound(jd + 32044);
    JdToCivilUnpacks(jd);
    ToDateValid(x);
    ToDateDay(x);
  }

  /** Date to day number and back, for every valid date. */
  lemma CivilRoundTrip(t: Date)
    requires Valid(t)
    ensures JdToCivil(CivilToJd(t)) == t
  {
    hide *;
    var x := FromDate(t);
    ToDateDay(x);
    UnpackExact(x);
    JdToCivilUnpacks(CivilToJd(t));
  }

  function NextMarched(x: Marched): Marched {
    if x.e < LastDay(x.b, x.d) then x.(e := x.e + 1)
    else if x.d < 99 then Marched(x.b, x.d + 1, 0)
    else Marched(x.b + 1, 0, 0)
  }

  lemma NextMarchedDay(x: Marched)
    requires Sound(x)
    ensures Sound(NextMarched(x)) && Day(NextMarched(x)) == Day(x) + 1
  {
  }

  function MonthStart(m: int): int { (153 * m + 2) / 5 }

  /** The months from March on are as long as the calendar says; February takes what is left. */
  lemma MonthLength(m: int, y: int)
    requires 0 <= m < 11
    ensures MonthStart(m + 1) - MonthStart(m) == DaysIn(y, m + 3 - 12 * (m / 10))
  {
    if m < 10 { assert m / 10 == 0; } else { assert m / 10 == 1; }
  }

  lemma MonthOfDay(e: int)
    requires 0 <= e <= 365
    ensures 0 <= MonthOf(e) <= 11 && MonthStart(MonthOf(e)) <= e < MonthStart(MonthOf(e) + 1)
    ensures MonthOf(e + 1) == if e + 1 == MonthStart(MonthOf(e) + 1) then MonthOf(e) + 1 else MonthOf(e)
  {
  }

  /** From March to January the length of the month does not depend on the year. */
  lemma TomorrowBeforeFebruary(x: Marched)
    requires 0 <= x.e && 0 <= MonthOf(x.e) < 11
    requires MonthStart(MonthOf(x.e)) <= x.e < MonthStart(MonthOf(x.e) + 1)
    requires MonthOf(x.e + 1) == if x.e + 1 == MonthStart(MonthOf(x.e) + 1) then MonthOf(x.e) + 1 else MonthOf(x.e)
    ensures Tomorrow(ToDate(x)) == ToDate(x.(e := x.e + 1))
  {
    MonthLength(MonthOf(x.e), ToDate(x).year);
  }

  lemma TomorrowInFebruary(x: Marched)
    requires Sound(x) && x.e < LastDay(x.b, x.d) && MonthOf(x.e) == 11
    ensures Tomorrow(ToDate(x)) == ToDate(x.(e := x.e + 1))
  {
    MarchLeap(x.b, x.d);
    assert MonthOf(x.e + 1) == 11;
    assert ToDate(x) == Date(100 * x.b + x.d - 4799, 2, x.e - 336);
  }

  lemma TomorrowWithinYear(x: Marched)
    requires Sound(x) && x.e < LastDay(x.b, x.d)
    ensures Tomorrow(ToDate(x)) == ToDate(x.(e := x.e + 1))
  {
    MonthOfDay(x.e);
    if MonthOf(x.e) < 11 { TomorrowBeforeFebruary(x); } else { TomorrowInFebruary(x); }
  }

  lemma TomorrowNewYear(x: Marched)
    requires Sound(x) && x.e == LastDay(x.b, x.d)
    ensures Tomorrow(ToDate(x)) == ToDate(NextMarched(x))
  {
    MarchLeap(x.b, x.d);
    assert MonthOf(x.e) == 11;
    assert ToDate(x) == Date(100 * x.b + x.d - 4799, 2, x.e - 336);
    assert ToDate(NextMarched(x)) == Date(100 * x.b + x.d - 4799, 3, 1);
  }

  /** Day numbers count days: tomorrow's number is one more. */
  lemma JdCountsDays(t: Date)
    requires Valid(t)
    ensures Valid(Tomorrow(t)) && CivilToJd(Tomorrow(t)) == CivilToJd(t) + 1
  {
    var x := FromDate(t);
    var x' := NextMarched(x);
    if x.e < LastDay(x.b, x.d) { TomorrowWithinYear(x); } else { TomorrowNewYear(x); }
    assert Tomorrow(t) == ToDate(x');
    NextMarchedDay(x);
    ToDateDay(x);
    ToDateDay(x');
    ToDateValid(x');
  }

  lemma EpochDay()
    ensures CivilToJd(Date(1970, 1, 1)) == 2440588 && JdToCivil(2440588) == Date(1970, 1, 1)
  {
    assert (14 - 1) / 12 == 1 && (153 * 10 + 2) / 5 == 306;
    assert 6769 / 4 == 1692 && 6769 / 100 == 67 && 6769 / 400 == 16;
    assert CivilToJd(Date(1970, 1, 1)) == 2440588;
    CivilRoundTrip(Date(1970, 1, 1));
  }

  /** So the conversion is the calendar: with `EpochDay` for a start, it moves one day at a time. */
  lemma JdToCivilIsTheCalendar(jd: int)
    ensures JdToCivil(jd + 1) == Tomorrow(JdToCivil(jd))
  {
    JdRoundTrip(jd);
    JdMovesOneDay(JdToCivil(jd), jd);
  }

  lemma JdMovesOneDay(t: Date, jd: int)
    requires Valid(t) && CivilToJd(t) == jd
    ensures JdToCivil(jd + 1) == Tomorrow(t)
  {
    JdCountsDays(t);
    CivilRoundTrip(Tomorrow(t));
  }

  lemma YearOfEra(b: int, d: int, e: int)
    requires 0 <= b < 4 && Sound(Marched(b, d, e))
    ensures var doe := 36524 * b + 365 * d + d / 4 + e;
            (doe - doe / 1460 + doe / 36524 - doe / 146096) / 365 == 100 * b + d
  {
    var doe := 36524 * b + 365 * d + d / 4 + e;
    var q, r := d / 4, d % 4;
    var over := 24 * b + q + 365 * r + e;
    assert doe == 1460 * (25 * b + q) + over;
    CenturyOfEra(b, d, e);
    assert doe / 1460 == 25 * b + q + if over >= 1460 then 1 else 0;
    assert doe - doe / 1460 + b == 365 * (100 * b + d) + e - if over >= 1460 then 1 else 0;
    assert e == 365 ==> r == 3;
  }

  lemma CenturyOfEra(b: int, d: int, e: int)
    requires 0 <= b < 4 && Sound(Marched(b, d, e))
    ensures var doe := 36524 * b + 365 * d + d / 4 + e;
            doe / 36524 - doe / 146096 == b && 0 <= doe <= 146096
  {
    var c := 365 * d + d / 4 + e;
    assert 0 <= c <= 36523 + if b == 3 then 1 else 0;
    hide *;
    CenturyOfDay(b, c);
  }

  lemma CenturyOfDay(b: int, c: int)
    requires 0 <= b < 4 && 0 <= c <= 36523 + if b == 3 then 1 else 0
    ensures var doe := 36524 * b + c; doe / 36524 - doe / 146096 == b && 0 <= doe <= 146096
  {
    var doe := 36524 * b + c;
    if c == 36524 { assert doe == 146096; } else { assert doe / 36524 == b && doe / 146096 == 0; }
  }

  lemma EraOfDay(x: Marched)
    requires Sound(x)
    ensures Day(x) / 146097 == x.b / 4
    ensures Day(x) - 146097 * (x.b / 4) == 36524 * (x.b % 4) + 365 * x.d + x.d / 4 + x.e
  {
    var k, b := x.b / 4, x.b % 4;
    assert Day(x) == 146097 * k + (36524 * b + 365 * x.d + x.d / 4 + x.e);
    assert LastDay(b, x.d) == LastDay(x.b, x.d);
    CenturyOfEra(b, x.d, x.e);
  }

  /** The era arithmetic gives the same date for every day count. */
  lemma EraAgrees(days: int)
    ensures DateOfDays(days) == JdToCivil(2440588 + days)
  {
    var a := 2440588 + days + 32044;
    UnpackSound(a);
    JdToCivilUnpacks(2440588 + days);
    EraOfMarched(days, Unpack(a));
  }

  /** At every second of a day `__lava_today` says the date of that day's number. */
  lemma TodayAgrees(days: int, second: int)
    requires 0 <= second < 86400
    ensures DateOfSeconds(86400 * days + second) == JdToCivil(2440588 + days)
  {
    hide DateOfDays, JdToCivil;
    assert (86400 * days + second) / 86400 == days;
    EraAgrees(days);
  }

  lemma EraOfMarched(days: int, x: Marched)
    requires Sound(x) && Day(x) == days + 719468 + 12 * 146097
    ensures DateOfDays(days) == ToDate(x)
  {
    hide Sound, ToDate, DateInEra, Day;
    EraOfDay(x);
    assert (days + 719468) / 146097 == x.b / 4 - 12;
    DayOfEra(x, x.b / 4 - 12);
  }

  lemma DayOfEra(x: Marched, era: int)
    requires Sound(x) && era == x.b / 4 - 12
    ensures DateInEra(era, 36524 * (x.b % 4) + 365 * x.d + x.d / 4 + x.e) == ToDate(x)
  {
    var b := x.b % 4;
    assert LastDay(b, x.d) == LastDay(x.b, x.d);
    EraYear(era, b, x.d, x.e);
    MonthOfDay(x.e);
    DayOfYear(x, era, 100 * b + x.d);
  }

  lemma EraYear(era: int, b: int, d: int, e: int)
    requires 0 <= b < 4 && Sound(Marched(b, d, e))
    ensures DateInEra(era, 36524 * b + 365 * d + d / 4 + e) == DateInYear(era, 100 * b + d, e)
  {
    var doe := 36524 * b + 365 * d + d / 4 + e;
    YearOfEra(b, d, e);
    EraYearStart(doe, b, d, e);
    hide *;
    EraIsYear(era, doe, 100 * b + d, e);
  }

  lemma EraIsYear(era: int, doe: int, yoe: int, doy: int)
    requires yoe == (doe - doe / 1460 + doe / 36524 - doe / 146096) / 365 &&
            doy == doe - (365 * yoe + yoe / 4 - yoe / 100)
    ensures DateInEra(era, doe) == DateInYear(era, yoe, doy)
  {
    hide DateInYear;
  }

  lemma EraYearStart(doe: int, b: int, d: int, e: int)
    requires 0 <= d < 100 && doe == 36524 * b + 365 * d + d / 4 + e
    ensures var yoe := 100 * b + d; doe - (365 * yoe + yoe / 4 - yoe / 100) == e
  {
    YearTerms(b, d);
  }

  lemma DayOfYear(x: Marched, era: int, yoe: int)
    requires 0 <= MonthOf(x.e) <= 11 && yoe + era * 400 == 100 * x.b + x.d - 4800
    ensures DateInYear(era, yoe, x.e) == ToDate(x)
  {
  }
}
