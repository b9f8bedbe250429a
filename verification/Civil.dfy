/** Civil dates (src/achievements.cpp): days since 1970-01-01 and back, against the rules of
    the proleptic Gregorian calendar. */
module Civil {

  // ------------------------------------------------------------ the calendar

  datatype Date = Date(year: int, month: int, day: int)

  predicate IsLeap(year: int) {
    year % 4 == 0 && (year % 100 != 0 || year % 400 == 0)
  }

  function DaysInMonth(year: int, month: int): int {
    if month == 2 then if IsLeap(year) then 29 else 28
    else if month == 4 || month == 6 || month == 9 || month == 11 then 30
    else 31
  }

  predicate IsDate(date: Date) {
    1 <= date.month <= 12 && 1 <= date.day <= DaysInMonth(date.year, date.month)
  }

  function NextDay(date: Date): Date {
    if date.day < DaysInMonth(date.year, date.month) then date.(day := date.day + 1)
    else if date.month < 12 then Date(date.year, date.month + 1, 1)
    else Date(date.year + 1, 1, 1)
  }

  // ------------------------------------------------------------ the conversions

  /** Division of the source language, towards zero. */
  function Quotient(a: int, b: int): int
    requires b > 0
  {
    if a >= 0 then a / b else -(-a / b)
  }

  function DaysFromCivil(date: Date): int {
    var y := if date.month <= 2 then date.year - 1 else date.year;
    var era := Quotient(if y >= 0 then y else y - 399, 400);
    var yoe := y - era * 400;
    var doy := (153 * (date.month + if date.month > 2 then -3 else 9) + 2) / 5 + date.day - 1;
    var doe := yoe * 365 + yoe / 4 - yoe / 100 + doy;
    era * 146097 + doe - 719468
  }

  function YearOfEra(doe: int): int {
    (doe - doe / 1460 + doe / 36524 - doe / 146096) / 365
  }

  function CivilFromDays(days: int): Date {
    var z := days + 719468;
    var era := Quotient(if z >= 0 then z else z - 146096, 146097);
    var doe := z - era * 146097;
    var yoe := YearOfEra(doe);
    var doy := doe - (365 * yoe + yoe / 4 - yoe / 100);
    var mp := (5 * doy + 2) / 153;
    var d := doy - (153 * mp + 2) / 5 + 1;
    var m := if mp < 10 then mp + 3 else mp - 9;
    Date(yoe + era * 400 + if m <= 2 then 1 else 0, m, d)
  }

  // ------------------------------------------------------------ years that begin in March

  /** Days from 0000-03-01 to the first of March of a year. */
  function YearStart(y: int): int {
    365 * y + y / 4 - y / 100 + y / 400
  }

  /** Days from the first of March to the first of a month, months numbered from March. */
  function MonthStart(mp: int): int {
    (153 * mp + 2) / 5
  }

  function MarchYear(date: Date): int { if date.month <= 2 then date.year - 1 else date.year }
  function MarchMonth(date: Date): int { if date.month <= 2 then date.month + 9 else date.month - 3 }

  lemma EraFloors(y: int)
    ensures Quotient(if y >= 0 then y else y - 399, 400) == y / 400
  {
  }

  lemma EraOfDays(z: int)
    ensures Quotient(if z >= 0 then z else z - 146096, 146097) == z / 146097
  {
  }

  lemma EraYears(y: int)
    ensures YearStart(y) == (y / 400) * 146097 + (y % 400) * 365 + (y % 400) / 4 - (y % 400) / 100
  {
    assert y == 400 * (y / 400) + y % 400;
    assert y / 4 == 100 * (y / 400) + (y % 400) / 4;
    assert y / 100 == 4 * (y / 400) + (y % 400) / 100;
  }

  /** The day number, as the sum of whole March years, whole months and days. */
  lemma DaysSplit(date: Date)
    ensures DaysFromCivil(date) == YearStart(MarchYear(date)) + MonthStart(MarchMonth(date)) + date.day - 1 - 719468
  {
    hide YearStart;
    EraFloors(MarchYear(date));
    EraYears(MarchYear(date));
  }

  lemma YearLength(y: int)
    ensures YearStart(y + 1) - YearStart(y) == if IsLeap(y + 1) then 366 else 365
  {
    NextFourth(y);
    NextCentury(y);
    NextEra(y);
    LeapKinds(y + 1);
    var fourth, century, era := (y + 1) / 4 - y / 4, (y + 1) / 100 - y / 100, (y + 1) / 400 - y / 400;
    assert YearStart(y + 1) - YearStart(y) == 365 + fourth - century + era;
    hide YearStart, IsLeap;
  }

  lemma LeapKinds(n: int)
    ensures n % 400 == 0 ==> n % 100 == 0
    ensures n % 100 == 0 ==> n % 4 == 0
    ensures IsLeap(n) <==> n % 4 == 0 && (n % 100 != 0 || n % 400 == 0)
  {
  }

  lemma NextFourth(y: int)
    ensures (y + 1) / 4 - y / 4 == if (y + 1) % 4 == 0 then 1 else 0
  {
  }

  lemma NextCentury(y: int)
    ensures (y + 1) / 100 - y / 100 == if (y + 1) % 100 == 0 then 1 else 0
  {
  }

  lemma NextEra(y: int)
    ensures (y + 1) / 400 - y / 400 == if (y + 1) % 400 == 0 then 1 else 0
  {
  }

  lemma MonthLengths(date: Date)
    requires 1 <= date.month <= 12
    ensures 0 <= MarchMonth(date) <= 11
    ensures MarchMonth(date) < 11
      ==> MonthStart(MarchMonth(date) + 1) == MonthStart(MarchMonth(date)) + DaysInMonth(date.year, date.month)
    ensures MarchMonth(date) == 11 ==>
      MonthStart(11) + DaysInMonth(date.year, date.month) == YearStart(MarchYear(date) + 1) - YearStart(MarchYear(date))
  {
    hide YearStart;
    YearLength(MarchYear(date));
  }

  /** The day after a date is the next number. */
  lemma NextDayIsNext(date: Date)
    requires IsDate(date)
    ensures IsDate(NextDay(date)) && DaysFromCivil(NextDay(date)) == DaysFromCivil(date) + 1
  {
    hide YearStart, DaysFromCivil;
    DaysSplit(date);
    DaysSplit(NextDay(date));
    MonthLengths(date);
  }

  /** Day 0 is 1970-01-01. */
  lemma Epoch()
    ensures DaysFromCivil(Date(1970, 1, 1)) == 0 && IsDate(Date(1970, 1, 1))
  {
  }

  // ------------------------------------------------------------ there and back

  /** The year of the era holds the day: first its century, then its place among four years. */
  lemma YearHolds(doe: int)
    requires 0 <= doe < 146097
    ensures 0 <= YearOfEra(doe) < 400
    ensures YearStart(YearOfEra(doe)) <= doe < YearStart(YearOfEra(doe) + 1)
  {
    if doe == 146096 {
      assert YearOfEra(doe) == 399;
    } else {
      CenturyHolds(doe, doe / 36524);
    }
  }

  lemma CenturyYear(doe: int, c: int, a: int, q: int)
    requires 0 <= c < 4 && 36524 * c <= doe < 36524 * c + 36524
    requires 1460 * a <= doe < 1460 * a + 1460 && 365 * q <= doe - a + c < 365 * q + 365
    ensures 100 * c <= q < 100 * c + 100 && 4 * a - 1 <= q <= 4 * a + 3
  {
    assert 25 * c <= a <= 25 * c + 25;
  }

  lemma CenturyStart(doe: int, c: int, a: int, q: int)
    requires 0 <= c < 4 && 36524 * c <= doe < 36524 * c + 36524
    requires 1460 * a <= doe < 1460 * a + 1460 && 365 * q <= doe - a + c < 365 * q + 365
    requires 100 * c <= q < 100 * c + 100 && 4 * a - 1 <= q <= 4 * a + 3
    ensures YearStart(q) <= doe < YearStart(q + 1)
  {
    assert q / 100 == c && q / 400 == 0;
    assert q / 4 == if q < 4 * a then a - 1 else a;
    YearLength(q);
  }

  lemma CenturyHolds(doe: int, c: int)
    requires 0 <= c < 4 && 36524 * c <= doe < 36524 * c + 36524
    ensures 100 * c <= YearOfEra(doe) < 100 * c + 100
    ensures YearStart(YearOfEra(doe)) <= doe < YearStart(YearOfEra(doe) + 1)
  {
    hide YearStart;
    assert doe / 36524 == c && doe / 146096 == 0;
    CenturyYear(doe, c, doe / 1460, YearOfEra(doe));
    CenturyStart(doe, c, doe / 1460, YearOfEra(doe));
  }

  lemma MonthHolds(doy: int)
    requires 0 <= doy < 366
    ensures var mp := (5 * doy + 2) / 153;
      0 <= mp <= 11 && MonthStart(mp) <= doy && (mp < 11 ==> doy < MonthStart(mp + 1))
  {
  }

  /** The date of a day within an era, by its March year and month. */
  lemma DateOfEraDay(era: int, doe: int)
    requires 0 <= doe < 146097
    ensures var yoe := YearOfEra(doe);
      var doy := doe - (365 * yoe + yoe / 4 - yoe / 100);
      var date := CivilFromDays(era * 146097 + doe - 719468);
      0 <= yoe < 400 && 0 <= doy < YearStart(yoe + 1) - YearStart(yoe)
      && MarchYear(date) == yoe + era * 400 && MarchMonth(date) == (5 * doy + 2) / 153 && 1 <= date.month <= 12
      && date.day == doy - MonthStart(MarchMonth(date)) + 1
  {
    hide YearOfEra, Quotient, YearStart;
    var z, yoe := era * 146097 + doe, YearOfEra(doe);
    EraOfDays(z);
    EraPart(era, doe);
    YearHolds(doe);
    StartInEra(yoe);
    YearLength(yoe);
    MonthHolds(doe - YearStart(yoe));
  }

  lemma StartInEra(yoe: int)
    requires 0 <= yoe < 400
    ensures YearStart(yoe) == 365 * yoe + yoe / 4 - yoe / 100
  {
  }

  lemma EraPart(era: int, doe: int)
    requires 0 <= doe < 146097
    ensures (era * 146097 + doe) / 146097 == era
  {
  }

  lemma LeapRepeats(n: int, era: int)
    ensures IsLeap(n + era * 400) == IsLeap(n)
  {
    Remainders(n, era);
  }

  lemma Remainders(n: int, era: int)
    ensures (n + era * 400) % 4 == n % 4 && (n + era * 400) % 100 == n % 100 && (n + era * 400) % 400 == n % 400
  {
    ByFour(n, 100 * era);
    ByHundred(n, 4 * era);
    ByFourHundred(n, era);
  }

  lemma ByFour(n: int, k: int)
    ensures (n + 4 * k) % 4 == n % 4
  {
  }

  lemma ByHundred(n: int, k: int)
    ensures (n + 100 * k) % 100 == n % 100
  {
  }

  lemma ByFourHundred(n: int, k: int)
    ensures (n + 400 * k) % 400 == n % 400
  {
  }

  lemma SameLengths(yoe: int, era: int)
    ensures YearStart(yoe + era * 400 + 1) - YearStart(yoe + era * 400) == YearStart(yoe + 1) - YearStart(yoe)
  {
    hide *;
    YearLength(yoe);
    YearLength(yoe + era * 400);
    LeapRepeats(yoe + 1, era);
  }

  /** Every number is the number of the date made from it. */
  lemma DateOfDays(days: int)
    ensures IsDate(CivilFromDays(days)) && DaysFromCivil(CivilFromDays(days)) == days
  {
    hide YearStart, DaysFromCivil, YearOfEra, CivilFromDays, MonthStart, MarchYear, MarchMonth, DaysInMonth;
    var z := days + 719468;
    var era, doe := z / 146097, z % 146097;
    var yoe := YearOfEra(doe);
    var date := CivilFromDays(days);
    DateOfEraDay(era, doe);
    var doy := doe - (365 * yoe + yoe / 4 - yoe / 100);
    EraYears(yoe + era * 400);
    assert (yoe + era * 400) / 400 == era && (yoe + era * 400) % 400 == yoe;
    SameLengths(yoe, era);
    YearLength(yoe);
    MonthHolds(doy);
    MonthLengths(date);
    DaysSplit(date);
  }

  lemma YearsGrow(x: int, y: int)
    requires x < y
    ensures YearStart(x + 1) <= YearStart(y)
    decreases y - x
  {
    if x + 1 < y {
      YearsGrow(x, y - 1);
      YearLength(y - 1);
    }
  }

  lemma DayInYear(date: Date)
    requires IsDate(date)
    ensures 0 <= MonthStart(MarchMonth(date)) + date.day - 1 < YearStart(MarchYear(date) + 1)
      - YearStart(MarchYear(date))
  {
    hide YearStart;
    MonthLengths(date);
    YearLength(MarchYear(date));
  }

  lemma SameDayOfYear(a: Date, b: Date)
    requires IsDate(a) && IsDate(b) && MarchYear(a) == MarchYear(b)
    requires MonthStart(MarchMonth(a)) + a.day == MonthStart(MarchMonth(b)) + b.day
    ensures a == b
  {
    hide YearStart;
    MonthLengths(a);
    MonthLengths(b);
  }

  /** Different dates have different numbers. */
  lemma DaysTellApart(a: Date, b: Date)
    requires IsDate(a) && IsDate(b) && DaysFromCivil(a) == DaysFromCivil(b)
    ensures a == b
  {
    hide *;
    DaysSplit(a);
    DaysSplit(b);
    DayInYear(a);
    DayInYear(b);
    if MarchYear(a) < MarchYear(b) {
      YearsGrow(MarchYear(a), MarchYear(b));
    } else if MarchYear(b) < MarchYear(a) {
      YearsGrow(MarchYear(b), MarchYear(a));
    }
    SameDayOfYear(a, b);
  }

  /** Every date is the date made from its number. */
  lemma DaysOfDate(date: Date)
    requires IsDate(date)
    ensures CivilFromDays(DaysFromCivil(date)) == date
  {
    hide *;
    DateOfDays(DaysFromCivil(date));
    DaysTellApart(CivilFromDays(DaysFromCivil(date)), date);
  }

  /** Counting days and counting dates agree. */
  lemma NextNumberIsNextDay(days: int)
    ensures CivilFromDays(days + 1) == NextDay(CivilFromDays(days))
  {
    hide *;
    DateOfDays(days);
    NextDayIsNext(CivilFromDays(days));
    DaysOfDate(NextDay(CivilFromDays(days)));
  }
}
