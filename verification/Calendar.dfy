/**
 * Day numbers of the Gregorian calendar: the closed formulas of Date.cc, and
 * the calendar itself (month lengths, leap years, the next day) to check them
 * against.  Years are astronomical: year 0 precedes year 1.
 */
module Calendar {
  import opened CArithmetic

  datatype YearMonthDay = YearMonthDay(year: int, month: int, day: int)

  const JULIAN_DAY_OF_1970_01_01 := 2440588

  // ---------------------------------------------------------- the formulas

  function JulianDayNumber(year: int, month: int, day: int): int {
    var a := Quot(14 - month, 12);
    var y := year + 4800 - a;
    var m := month + 12 * a - 3;
    day + Quot(153 * m + 2, 5) + y * 365 + Quot(y, 4) - Quot(y, 100) + Quot(y, 400) - 32045
  }

  function YearMonthDayOf(julianDayNumber: int): YearMonthDay {
    var a := julianDayNumber + 32044;
    var b := Quot(4 * a + 3, 146097);
    var c := a - Quot(b * 146097, 4);
    var d := Quot(4 * c + 3, 1461);
    var e := c - Quot(1461 * d, 4);
    var m := Quot(5 * e + 2, 153);
    YearMonthDay(b * 100 + d - 4800 + Quot(m, 10),
                 m + 3 - 12 * Quot(m, 10),
                 e - Quot(153 * m + 2, 5) + 1)
  }

  // ---------------------------------------------------------- the calendar

  predicate IsLeap(year: int) {
    year % 4 == 0 && (year % 100 != 0 || year % 400 == 0)
  }

  function DaysInMonth(year: int, month: int): int {
    if month == 2 then (if IsLeap(year) then 29 else 28)
    else if month in {4, 6, 9, 11} then 30
    else 31
  }

  predicate ValidDate(ymd: YearMonthDay) {
    1 <= ymd.month <= 12 && 1 <= ymd.day <= DaysInMonth(ymd.year, ymd.month)
  }

  function NextDay(ymd: YearMonthDay): YearMonthDay {
    if ymd.day < DaysInMonth(ymd.year, ymd.month) then ymd.(day := ymd.day + 1)
    else if ymd.month < 12 then YearMonthDay(ymd.year, ymd.month + 1, 1)
    else YearMonthDay(ymd.year + 1, 1, 1)
  }

  /** 1 March of year -4800 or later, where no dividend of the formulas is negative. */
  predicate Supported(ymd: YearMonthDay) {
    ymd.year > -4800 || (ymd.year == -4800 && ymd.month >= 3)
  }

  function Number(ymd: YearMonthDay): int {
    JulianDayNumber(ymd.year, ymd.month, ymd.day)
  }

  // -------------------------------------------- years that begin in March

  /** Days before month m of a year that begins in March (0 is March). */
  function DaysBeforeMonth(m: int): int
    requires 0 <= m <= 11
  {
    (153 * m + 2) / 5
  }

  /** Days before the year y that begins in March, counted from year 0. */
  function DaysBeforeYear(y: int): int
    requires 0 <= y
  {
    y * 365 + y / 4 - y / 100 + y / 400
  }

  /** Length of the year y that begins in March: its February belongs to year y + 1. */
  function YearLength(y: int): int { if IsLeap(y + 1) then 366 else 365 }

  lemma SplitQuotients(y: int, q: int, c: int, r: int)
    requires y == 400 * q + 100 * c + r && 0 <= q && 0 <= c <= 3 && 0 <= r <= 99
    ensures y / 400 == q && y / 100 == 4 * q + c && y / 4 == 100 * q + 25 * c + r / 4
  {
    assert y == 4 * (100 * q + 25 * c + r / 4) + r % 4;
    assert y == 100 * (4 * q + c) + r;
  }

  lemma Remainders(n: int, h: int, r: int, q: int, c: int)
    requires n == 100 * h + r && 0 <= r < 100
    requires h == 4 * q + c && 0 <= c < 4
    ensures n % 100 == r && n % 4 == r % 4 && (r == 0 ==> n % 400 == 100 * c)
  {
    assert n == 4 * (25 * h + r / 4) + r % 4;
    assert n == 400 * q + (100 * c + r);
  }

  lemma SplitLeap(y: int, q: int, c: int, r: int)
    requires y == 400 * q + 100 * c + r && 0 <= q && 0 <= c <= 3 && 0 <= r <= 99
    ensures IsLeap(y + 1) <==> r % 4 == 3 && (r != 99 || c == 3)
  {
    if r < 99 {
      Remainders(y + 1, 4 * q + c, r + 1, q, c);
    } else if c < 3 {
      Remainders(y + 1, 4 * q + c + 1, 0, q, c + 1);
    } else {
      Remainders(y + 1, 4 * q + 4, 0, q + 1, 0);
    }
  }

  /** A year as q cycles of 400, c centuries and r years. */
  lemma SplitYear(y: int, q: int, c: int, r: int)
    requires y == 400 * q + 100 * c + r && 0 <= q && 0 <= c <= 3 && 0 <= r <= 99
    ensures y / 400 == q && y / 100 == 4 * q + c && y / 4 == 100 * q + 25 * c + r / 4
    ensures DaysBeforeYear(y) == 146097 * q + 36524 * c + 365 * r + r / 4
    ensures IsLeap(y + 1) <==> r % 4 == 3 && (r != 99 || c == 3)
  {
    SplitQuotients(y, q, c, r);
    SplitLeap(y, q, c, r);
    hide IsLeap;
  }

  /** The month is recovered from the day of the year. */
  lemma MonthOfDay(m: int, day: int, e: int)
    requires 0 <= m <= 11 && 1 <= day && e == DaysBeforeMonth(m) + day - 1
    requires m < 11 ==> e < DaysBeforeMonth(m + 1)
    requires e <= 365
    ensures Quot(5 * e + 2, 153) == m && Quot(153 * m + 2, 5) == DaysBeforeMonth(m)
    ensures Quot(m, 10) == if m >= 10 then 1 else 0
  {
  }

  /** The century is recovered from the day number ... */
  lemma CenturyOfDay(q: int, c: int, x: int)
    requires 0 <= q && 0 <= c <= 3 && 0 <= x <= (if c == 3 then 36524 else 36523)
    ensures var a := 146097 * q + 36524 * c + x;
            var b := Quot(4 * a + 3, 146097);
            b == 4 * q + c && a - Quot(b * 146097, 4) == x
  {
    var a := 146097 * q + 36524 * c + x;
    assert 4 * a + 3 == 146097 * (4 * q + c) + (4 * x + 3 - c);
    assert (4 * q + c) * 146097 == 4 * (146097 * q + 36524 * c) + c;
  }

  /** ... and then the year of the century and the day of the year. */
  lemma YearOfDay(r: int, e: int)
    requires 0 <= r <= 99 && 0 <= e <= 365 && (e == 365 ==> r % 4 == 3)
    ensures var x := 365 * r + r / 4 + e;
            Quot(4 * x + 3, 1461) == r && x - Quot(1461 * r, 4) == e
  {
    var x := 365 * r + r / 4 + e;
    assert 4 * x + 3 == 1461 * r + (4 * e + 3 - r % 4);
  }

  lemma Shift4(x: int)
    ensures (x + 4800) % 4 == x % 4
  {
  }

  lemma Shift100(x: int)
    ensures (x + 4800) % 100 == x % 100
  {
  }

  lemma Shift400(x: int)
    ensures (x + 4800) % 400 == x % 400
  {
  }

  /** The rule for leap years repeats after twelve cycles of 400 years. */
  lemma LeapShift(year: int)
    ensures IsLeap(year) <==> IsLeap(year + 4800)
  {
    Shift4(year);
    Shift100(year);
    Shift400(year);
  }

  // --------------------------------------------------------- main results

  /** The formula counts days: whole years that begin in March, whole months, days. */
  lemma NumberCountsDays(ymd: YearMonthDay, y: int, m: int)
    requires ValidDate(ymd) && Supported(ymd)
    requires y == ymd.year + 4800 - (if ymd.month <= 2 then 1 else 0)
    requires m == ymd.month + (if ymd.month <= 2 then 9 else -3)
    ensures 0 <= y && 0 <= m <= 11
    ensures Number(ymd) + 32044 == DaysBeforeYear(y) + DaysBeforeMonth(m) + ymd.day - 1
    ensures DaysBeforeMonth(m) + ymd.day - 1 < (if m < 11 then DaysBeforeMonth(m + 1) else YearLength(y))
  {
    LeapShift(ymd.year);
    hide IsLeap, JulianDayNumber;
    FormulaCountsDays(ymd.year, ymd.month, ymd.day, y, m);
  }

  lemma FormulaCountsDays(year: int, month: int, day: int, y: int, m: int)
    requires 1 <= month <= 12
    requires y == year + 4800 - (if month <= 2 then 1 else 0) && 0 <= y
    requires m == month + (if month <= 2 then 9 else -3)
    ensures JulianDayNumber(year, month, day) + 32044 == DaysBeforeYear(y) + DaysBeforeMonth(m) + day - 1
  {
    assert Quot(14 - month, 12) == if month <= 2 then 1 else 0;
  }

  /** Date to day number and back, for every valid date from 1 March of year -4800 on. */
  lemma DateRoundTrip(ymd: YearMonthDay)
    requires ValidDate(ymd) && Supported(ymd)
    ensures YearMonthDayOf(Number(ymd)) == ymd
  {
    var y := ymd.year + 4800 - (if ymd.month <= 2 then 1 else 0);
    var m := ymd.month + (if ymd.month <= 2 then 9 else -3);
    NumberCountsDays(ymd, y, m);
    var e := DaysBeforeMonth(m) + ymd.day - 1;
    Recovered(y, m, e, Number(ymd));
  }

  /** What the second formula computes from a number taken apart into year, month and day. */
  lemma Recovered(y: int, m: int, e: int, julianDayNumber: int)
    requires 0 <= y && 0 <= m <= 11
    requires DaysBeforeMonth(m) <= e < (if m < 11 then DaysBeforeMonth(m + 1) else YearLength(y))
    requires julianDayNumber + 32044 == DaysBeforeYear(y) + e
    ensures YearMonthDayOf(julianDayNumber) ==
            YearMonthDay(y - 4800 + (if m >= 10 then 1 else 0), m + (if m >= 10 then -9 else 3),
                         e - DaysBeforeMonth(m) + 1)
  {
    var q, c, r := y / 400, y % 400 / 100, y % 100;
    SplitYear(y, q, c, r);
    hide IsLeap, DaysBeforeYear, YearMonthDayOf;
    assert 0 <= e <= 365 && (e == 365 ==> r % 4 == 3 && (r == 99 ==> c == 3));
    RecoveredFrom(q, c, r, m, e, julianDayNumber);
  }

  lemma RecoveredFrom(q: int, c: int, r: int, m: int, e: int, julianDayNumber: int)
    requires 0 <= q && 0 <= c <= 3 && 0 <= r <= 99 && 0 <= m <= 11
    requires 0 <= DaysBeforeMonth(m) <= e <= 365 && (m < 11 ==> e < DaysBeforeMonth(m + 1))
    requires e == 365 ==> r % 4 == 3 && (r == 99 ==> c == 3)
    requires julianDayNumber + 32044 == 146097 * q + 36524 * c + (365 * r + r / 4 + e)
    ensures YearMonthDayOf(julianDayNumber) ==
            YearMonthDay(400 * q + 100 * c + r - 4800 + (if m >= 10 then 1 else 0), m + (if m >= 10 then -9 else 3),
                         e - DaysBeforeMonth(m) + 1)
  {
    hide Quot, DaysBeforeMonth;
    CenturyOfDay(q, c, 365 * r + r / 4 + e);
    YearOfDay(r, e);
    MonthOfDay(m, e - DaysBeforeMonth(m) + 1, e);
  }

  lemma YearLengthAdds(y: int)
    requires 0 <= y
    ensures DaysBeforeYear(y + 1) == DaysBeforeYear(y) + YearLength(y)
  {
    var q, c, r := y / 400, y % 400 / 100, y % 100;
    SplitYear(y, q, c, r);
    if r < 99 {
      SplitYear(y + 1, q, c, r + 1);
    } else if c < 3 {
      SplitYear(y + 1, q, c + 1, 0);
    } else {
      SplitYear(y + 1, q + 1, 0, 0);
    }
    hide DaysBeforeYear, IsLeap;
  }

  /** The next calendar day has the next number. */
  lemma NextDayIsNextNumber(ymd: YearMonthDay)
    requires ValidDate(ymd) && Supported(ymd)
    ensures ValidDate(NextDay(ymd)) && Supported(NextDay(ymd))
    ensures Number(NextDay(ymd)) == Number(ymd) + 1
  {
    hide DaysBeforeYear, IsLeap, Number;
    var next := NextDay(ymd);
    var y := ymd.year + 4800 - (if ymd.month <= 2 then 1 else 0);
    var m := ymd.month + (if ymd.month <= 2 then 9 else -3);
    var y' := next.year + 4800 - (if next.month <= 2 then 1 else 0);
    var m' := next.month + (if next.month <= 2 then 9 else -3);
    YearLengthAdds(y);
    LeapShift(ymd.year);
    NumberCountsDays(ymd, y, m);
    NumberCountsDays(next, y', m');
  }

  /** Every number from that of 1 March of year -4800 on is the number of a date. */
  lemma {:induction false} DateWithNumber(julianDayNumber: int) returns (ymd: YearMonthDay)
    requires julianDayNumber >= -32044
    ensures ValidDate(ymd) && Supported(ymd) && Number(ymd) == julianDayNumber
    decreases julianDayNumber + 32044
  {
    if julianDayNumber == -32044 {
      ymd := YearMonthDay(-4800, 3, 1);
    } else {
      var before := DateWithNumber(julianDayNumber - 1);
      NextDayIsNextNumber(before);
      ymd := NextDay(before);
    }
  }

  /** Day number to date and back, and the date is a date of the calendar. */
  lemma NumberRoundTrip(julianDayNumber: int)
    requires julianDayNumber >= -32044
    ensures ValidDate(YearMonthDayOf(julianDayNumber)) && Supported(YearMonthDayOf(julianDayNumber))
    ensures Number(YearMonthDayOf(julianDayNumber)) == julianDayNumber
  {
    var ymd := DateWithNumber(julianDayNumber);
    DateRoundTrip(ymd);
  }

  /** From a negative dividend on, each remainder of the second formula is negative too ... */
  lemma NegativeRest(a: int, k: int)
    requires a < 0 && k > 0
    ensures a - Quot(k * Quot(4 * a + 3, k), 4) < 0
  {
    var b := Quot(4 * a + 3, k);
    assert b == -((-(4 * a + 3)) / k);
    assert k * ((-(4 * a + 3)) / k) <= -(4 * a + 3);
    assert Quot(k * b, 4) == -((k * -b) / 4);
  }

  /** ... and so the day of the month is not positive. */
  lemma NotPositive(e: int)
    requires e < 0
    ensures var m := Quot(5 * e + 2, 153); e - Quot(153 * m + 2, 5) + 1 <= 0
  {
  }

  /** The second formula gives a date of the calendar exactly for the numbers from 1 March of year -4800 on. */
  lemma NumberHasDateIff(julianDayNumber: int)
    ensures ValidDate(YearMonthDayOf(julianDayNumber)) <==> julianDayNumber >= -32044
  {
    if julianDayNumber >= -32044 {
      NumberRoundTrip(julianDayNumber);
    } else {
      var a := julianDayNumber + 32044;
      NegativeRest(a, 146097);
      var c := a - Quot(Quot(4 * a + 3, 146097) * 146097, 4);
      NegativeRest(c, 1461);
      NotPositive(c - Quot(1461 * Quot(4 * c + 3, 1461), 4));
    }
  }

  /** A valid date comes back from its number exactly when it is 1 March of year -4800 or later. */
  lemma DateRoundTripIff(ymd: YearMonthDay)
    requires ValidDate(ymd)
    ensures YearMonthDayOf(Number(ymd)) == ymd <==> Supported(ymd)
  {
    hide YearMonthDayOf, JulianDayNumber;
    if Supported(ymd) {
      DateRoundTrip(ymd);
    } else {
      NumberHasDateIff(Number(ymd));
      if Number(ymd) >= -32044 {
        NumberRoundTrip(Number(ymd));
      }
    }
  }

  /** On the day before, the divisions truncate the wrong way: a witness. */
  lemma DayBeforeFails()
    ensures ValidDate(YearMonthDay(-4800, 2, 29))
    ensures Number(YearMonthDay(-4800, 2, 29)) == Number(YearMonthDay(-4800, 3, 1)) == -32044
    ensures YearMonthDayOf(-32045) == YearMonthDay(-4800, 3, 0)
  {
    assert ValidDate(YearMonthDay(-4800, 2, 29));
    hide IsLeap, ValidDate;
    assert Quot(14 - 2, 12) == 1 && Quot(14 - 3, 12) == 0;
    assert Quot(-1, 4) == Quot(-1, 100) == Quot(-1, 400) == 0;
    assert Quot(153 * 11 + 2, 5) == 337;
    assert JulianDayNumber(-4800, 2, 29) == -32044;
    assert JulianDayNumber(-4800, 3, 1) == -32044;
    assert Quot(4 * -1 + 3, 146097) == 0 && Quot(4 * -1 + 3, 1461) == 0 && Quot(5 * -1 + 2, 153) == 0;
  }

  /** The largest day number for which no int overflows. */
  const MAX_DAY_NUMBER := 536838867

  /** Every value the second formula computes fits an int, exactly up to that number. */
  lemma FitsInt(julianDayNumber: int)
    requires julianDayNumber >= -32044
    ensures var a := julianDayNumber + 32044;
            var b := Quot(4 * a + 3, 146097);
            var c := a - Quot(b * 146097, 4);
            var d := Quot(4 * c + 3, 1461);
            var e := c - Quot(1461 * d, 4);
            && (Int32(4 * a + 3) <==> julianDayNumber <= MAX_DAY_NUMBER)
            && (julianDayNumber <= MAX_DAY_NUMBER ==>
                  && Int32(b * 146097) && 0 <= c <= 36524 && Int32(4 * c + 3) && Int32(1461 * d)
                  && 0 <= e <= 365 && Int32(5 * e + 2))
  {
    var a := julianDayNumber + 32044;
    var b := Quot(4 * a + 3, 146097);
    var c := a - Quot(b * 146097, 4);
    assert 0 <= 4 * a + 3 - b * 146097 < 146097;
    assert 0 <= c <= 36524;
    var d := Quot(4 * c + 3, 1461);
    assert 0 <= 4 * c + 3 - 1461 * d < 1461;
  }

  /** So does every value the first formula computes, from left to right, for the dates up to that number. */
  lemma NumberFitsInt(ymd: YearMonthDay)
    requires ValidDate(ymd) && Supported(ymd) && Number(ymd) <= MAX_DAY_NUMBER
    ensures var a := Quot(14 - ymd.month, 12);
            var y := ymd.year + 4800 - a;
            var m := ymd.month + 12 * a - 3;
            var s0 := ymd.day + Quot(153 * m + 2, 5);
            var s1 := s0 + y * 365;
            var s2 := s1 + Quot(y, 4);
            var s3 := s2 - Quot(y, 100);
            var s4 := s3 + Quot(y, 400);
            && Int32(ymd.year + 4800) && Int32(153 * m + 2) && Int32(y * 365)
            && Int32(s0) && Int32(s1) && Int32(s2) && Int32(s3) && Int32(s4) && s4 - 32045 == Number(ymd)
  {
    assert Quot(14 - ymd.month, 12) == if ymd.month <= 2 then 1 else 0;
    var y := ymd.year + 4800 - (if ymd.month <= 2 then 1 else 0);
    assert 0 <= y && y / 100 <= y / 4;
    assert y * 365 <= MAX_DAY_NUMBER + 32045;
  }
}
