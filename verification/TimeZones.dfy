/**
 * Broken-down time in UTC and in a time zone given by a table of offset
 * changes (the transition table of section 3.2 of RFC 8536).
 */
module TimeZones {
  import opened CArithmetic
  import opened Calendar

  const SECONDS_PER_DAY := 86400

  /** struct tm; year counts from 1900 and mon from 0. */
  datatype Tm = Tm(sec: int, min: int, hour: int, mday: int, mon: int, year: int,
                   wday: int, yday: int, isdst: bool, gmtoff: int)

  // ------------------------------------------------------------------ UTC

  datatype Hms = Hms(hour: int, min: int, sec: int)

  function FillHms(seconds: int): Hms {
    var minutes := seconds / 60;
    Hms(minutes / 60, minutes % 60, seconds % 60)
  }

  function ToUtcTime(secondsSinceEpoch: int, yday: bool): Tm {
    var s := Rem(secondsSinceEpoch, SECONDS_PER_DAY);
    var d := Quot(secondsSinceEpoch, SECONDS_PER_DAY);
    var seconds := if s < 0 then s + SECONDS_PER_DAY else s;
    var days := if s < 0 then d - 1 else d;
    var hms := FillHms(seconds);
    var date := days + JULIAN_DAY_OF_1970_01_01;
    var ymd := YearMonthDayOf(date);
    Tm(hms.sec, hms.min, hms.hour, ymd.day, ymd.month - 1, ymd.year - 1900, WeekDay(date),
       if yday then date - JulianDayNumber(ymd.year, 1, 1) else 0, false, 0)
  }

  function WeekDay(julianDayNumber: int): int { Rem(julianDayNumber + 1, 7) }

  function FromUtcTime(tm: Tm): int {
    (JulianDayNumber(tm.year + 1900, tm.mon + 1, tm.mday) - JULIAN_DAY_OF_1970_01_01) * SECONDS_PER_DAY
    + (tm.hour * 3600 + tm.min * 60 + tm.sec)
  }

  /** Midnight of 1 March of year -4800, and the last second of the last day whose number fits an int. */
  const FIRST_SECOND := (-32044 - JULIAN_DAY_OF_1970_01_01) * SECONDS_PER_DAY
  const LAST_SECOND := (MAX_DAY_NUMBER - JULIAN_DAY_OF_1970_01_01 + 1) * SECONDS_PER_DAY - 1

  predicate Instant(t: int) { FIRST_SECOND <= t <= LAST_SECOND }

  function DateOf(tm: Tm): YearMonthDay {
    YearMonthDay(tm.year + 1900, tm.mon + 1, tm.mday)
  }

  predicate ValidTm(tm: Tm) {
    && 0 <= tm.sec < 60 && 0 <= tm.min < 60 && 0 <= tm.hour < 24
    && ValidDate(DateOf(tm)) && Supported(DateOf(tm))
  }

  /** The correction makes the division round down, for instants before 1970 too. */
  lemma DayOf(t: int)
    requires Instant(t)
    ensures var day := t / SECONDS_PER_DAY;
            var tm := ToUtcTime(t, true);
            && DateOf(tm) == YearMonthDayOf(day + JULIAN_DAY_OF_1970_01_01)
            && tm.wday == WeekDay(day + JULIAN_DAY_OF_1970_01_01)
            && tm.hour * 3600 + tm.min * 60 + tm.sec == t % SECONDS_PER_DAY
            && 0 <= tm.sec < 60 && 0 <= tm.min < 60 && 0 <= tm.hour < 24
            && -32044 <= day + JULIAN_DAY_OF_1970_01_01 <= MAX_DAY_NUMBER
  {
    hide YearMonthDayOf, JulianDayNumber;
    FloorOf(t);
    var seconds := t % SECONDS_PER_DAY;
    assert seconds / 60 / 60 < 24;
  }

  lemma FloorOf(t: int)
    ensures var s, d := Rem(t, SECONDS_PER_DAY), Quot(t, SECONDS_PER_DAY);
            && (if s < 0 then s + SECONDS_PER_DAY else s) == t % SECONDS_PER_DAY
            && (if s < 0 then d - 1 else d) == t / SECONDS_PER_DAY
  {
  }

  /** Instant to broken-down time and back. */
  lemma InstantRoundTrip(t: int, yday: bool)
    requires Instant(t)
    ensures ValidTm(ToUtcTime(t, yday)) && FromUtcTime(ToUtcTime(t, yday)) == t
  {
    DayOf(t);
    NumberRoundTrip(t / SECONDS_PER_DAY + JULIAN_DAY_OF_1970_01_01);
    hide YearMonthDayOf, JulianDayNumber, ValidDate, Supported;
    assert DateOf(ToUtcTime(t, yday)) == DateOf(ToUtcTime(t, true));
  }

  /** tm_yday is filled in on demand. */
  lemma YearDayOnDemand(t: int)
    ensures ToUtcTime(t, false) == ToUtcTime(t, true).(yday := 0)
  {
    hide YearMonthDayOf, JulianDayNumber, Rem, Quot, FillHms;
  }

  /** Broken-down time to instant and back: every field but the derived ones. */
  lemma TmRoundTrip(tm: Tm, yday: bool)
    requires ValidTm(tm) && Instant(FromUtcTime(tm))
    ensures var back := ToUtcTime(FromUtcTime(tm), yday);
            && DateOf(back) == DateOf(tm)
            && back.hour == tm.hour && back.min == tm.min && back.sec == tm.sec
  {
    hide ToUtcTime, FromUtcTime, YearMonthDayOf, Number, ValidDate, Supported, Instant, FillHms;
    DateRoundTrip(DateOf(tm));
    SplitTm(tm);
    FieldsOf(FromUtcTime(tm), yday);
    ClockFields(tm.hour, tm.min, tm.sec);
  }

  lemma SplitTm(tm: Tm)
    requires 0 <= tm.sec < 60 && 0 <= tm.min < 60 && 0 <= tm.hour < 24
    ensures FromUtcTime(tm) / SECONDS_PER_DAY == Number(DateOf(tm)) - JULIAN_DAY_OF_1970_01_01
    ensures FromUtcTime(tm) % SECONDS_PER_DAY == tm.hour * 3600 + tm.min * 60 + tm.sec
  {
    hide JulianDayNumber;
    SplitInstant(FromUtcTime(tm), Number(DateOf(tm)) - JULIAN_DAY_OF_1970_01_01,
                 tm.hour * 3600 + tm.min * 60 + tm.sec);
  }

  /** The fields of a broken-down time in terms of the rounded-down division. */
  lemma FieldsOf(t: int, yday: bool)
    ensures var tm := ToUtcTime(t, yday);
            && DateOf(tm) == YearMonthDayOf(t / SECONDS_PER_DAY + JULIAN_DAY_OF_1970_01_01)
            && Hms(tm.hour, tm.min, tm.sec) == FillHms(t % SECONDS_PER_DAY)
  {
    hide YearMonthDayOf, JulianDayNumber, Rem, Quot, FillHms;
    FloorOf(t);
  }

  lemma SplitInstant(t: int, day: int, inDay: int)
    requires t == day * SECONDS_PER_DAY + inDay && 0 <= inDay < SECONDS_PER_DAY
    ensures t / SECONDS_PER_DAY == day && t % SECONDS_PER_DAY == inDay
  {
  }

  lemma ClockFields(hour: int, min: int, sec: int)
    requires 0 <= sec < 60 && 0 <= min < 60 && 0 <= hour < 24
    ensures FillHms(hour * 3600 + min * 60 + sec) == Hms(hour, min, sec)
  {
    var seconds := hour * 3600 + min * 60 + sec;
    assert seconds == 60 * (hour * 60 + min) + sec;
  }

  /** The weekday is one of 0..6 from the day numbered -1 on; before it, only on Sundays. */
  lemma WeekDayRange(julianDayNumber: int)
    ensures 0 <= WeekDay(julianDayNumber) <= 6 <==> julianDayNumber >= -1 || (julianDayNumber + 1) % 7 == 0
    ensures julianDayNumber >= -1 ==> WeekDay(julianDayNumber + 1) == (WeekDay(julianDayNumber) + 1) % 7
  {
  }

  /** From one day to the next at the same time of day, the weekday advances by one. */
  lemma WeekDayAdvances(t: int)
    requires Instant(t) && Instant(t + SECONDS_PER_DAY)
    requires t / SECONDS_PER_DAY + JULIAN_DAY_OF_1970_01_01 >= -1
    ensures 0 <= ToUtcTime(t, true).wday <= 6
    ensures ToUtcTime(t + SECONDS_PER_DAY, true).wday == (ToUtcTime(t, true).wday + 1) % 7
  {
    hide ToUtcTime, DateOf, YearMonthDayOf, WeekDay;
    var julianDayNumber := t / SECONDS_PER_DAY + JULIAN_DAY_OF_1970_01_01;
    DayOf(t);
    DayOf(t + SECONDS_PER_DAY);
    NextMidnight(t);
    WeekDayRange(julianDayNumber);
  }

  lemma NextMidnight(t: int)
    ensures (t + SECONDS_PER_DAY) / SECONDS_PER_DAY == t / SECONDS_PER_DAY + 1
  {
  }

  /** Days since 1 January by the month lengths of the calendar. */
  function DaysSinceNewYear(ymd: YearMonthDay): int
    requires 1 <= ymd.month <= 12
    decreases ymd.month
  {
    if ymd.month == 1 then ymd.day - 1
    else DaysInMonth(ymd.year, ymd.month - 1) + DaysSinceNewYear(ymd.(month := ymd.month - 1))
  }

  /** Days of the year before a month, from the formula's months that begin in March. */
  function MonthOffset(year: int, month: int): int
    requires 1 <= month <= 12
  {
    if month == 1 then 0
    else if month == 2 then 31
    else DaysBeforeMonth(month - 3) + (if IsLeap(year) then 60 else 59)
  }

  lemma {:induction false} MonthLengthsAdd(ymd: YearMonthDay)
    requires 1 <= ymd.month <= 12
    ensures DaysSinceNewYear(ymd) == MonthOffset(ymd.year, ymd.month) + ymd.day - 1
    decreases ymd.month
  {
    hide IsLeap;
    if ymd.month > 1 {
      MonthLengthsAdd(ymd.(month := ymd.month - 1));
    }
  }

  lemma YdayAfter(ymd: YearMonthDay)
    requires ValidDate(ymd) && ymd.year > -4800
    ensures Number(ymd) - Number(YearMonthDay(ymd.year, 1, 1)) == MonthOffset(ymd.year, ymd.month) + ymd.day - 1
  {
    var y0 := ymd.year + 4799;
    var y := ymd.year + 4800 - (if ymd.month <= 2 then 1 else 0);
    var m := ymd.month + (if ymd.month <= 2 then 9 else -3);
    hide Number, DaysBeforeYear, IsLeap;
    NumberCountsDays(YearMonthDay(ymd.year, 1, 1), y0, 10);
    NumberCountsDays(ymd, y, m);
    YearLengthAdds(y0);
    LeapShift(ymd.year);
  }

  lemma YdayFirst(ymd: YearMonthDay)
    requires ValidDate(ymd) && ymd.year == -4800 && ymd.month >= 3
    ensures Number(ymd) - Number(YearMonthDay(ymd.year, 1, 1)) == MonthOffset(ymd.year, ymd.month) + ymd.day - 2
  {
    FirstNewYear();
    hide Number, DaysBeforeYear, IsLeap;
    NumberCountsDays(ymd, 0, ymd.month - 3);
  }

  lemma YdayOfDate(ymd: YearMonthDay)
    requires ValidDate(ymd) && Supported(ymd)
    ensures var yday := Number(ymd) - Number(YearMonthDay(ymd.year, 1, 1));
            yday == DaysSinceNewYear(ymd) - (if ymd.year == -4800 then 1 else 0)
  {
    MonthLengthsAdd(ymd);
    hide Number, MonthOffset, DaysSinceNewYear, ValidDate;
    if ymd.year == -4800 {
      YdayFirst(ymd);
    } else {
      YdayAfter(ymd);
    }
  }

  lemma FirstNewYear()
    ensures Number(YearMonthDay(-4800, 1, 1)) == -32103 && DaysBeforeYear(0) == 0 && IsLeap(-4800)
  {
    hide IsLeap;
    assert Quot(14 - 1, 12) == 1;
    assert Quot(-1, 4) == Quot(-1, 100) == Quot(-1, 400) == 0;
    assert Quot(153 * 10 + 2, 5) == 306;
    LeapAt4800();
  }

  lemma LeapAt4800()
    ensures IsLeap(-4800)
  {
  }

  lemma DaysSinceNewYearRange(ymd: YearMonthDay)
    requires ValidDate(ymd)
    ensures 0 <= DaysSinceNewYear(ymd) <= (if IsLeap(ymd.year) then 365 else 364)
    ensures DaysSinceNewYear(ymd) == 0 <==> ymd.month == 1 && ymd.day == 1
  {
    MonthLengthsAdd(ymd);
  }

  /**
   * tm_yday lies in 0..365 at every instant; it counts the days since 1 January
   * by the calendar exactly for years after -4800, in which 1 January is supported.
   */
  lemma YearDay(t: int)
    requires Instant(t)
    ensures var tm := ToUtcTime(t, true);
            && ValidDate(DateOf(tm))
            && 0 <= tm.yday <= (if IsLeap(tm.year + 1900) then 365 else 364)
            && (tm.yday == DaysSinceNewYear(DateOf(tm)) <==> DateOf(tm).year > -4800)
            && (DateOf(tm).year > -4800 ==> (tm.mon == 0 && tm.mday == 1 <==> tm.yday == 0))
  {
    InstantRoundTrip(t, true);
    DayOf(t);
    NumberRoundTrip(t / SECONDS_PER_DAY + JULIAN_DAY_OF_1970_01_01);
    YdayOfDate(DateOf(ToUtcTime(t, true)));
    DaysSinceNewYearRange(DateOf(ToUtcTime(t, true)));
    FloorOf(t);
    hide YearMonthDayOf, JulianDayNumber, ValidDate, IsLeap, DaysSinceNewYear;
  }

  /** The epoch is midnight of Thursday, 1 January 1970. */
  lemma EpochIs()
    ensures Number(YearMonthDay(1970, 1, 1)) == 2440588
    ensures ToUtcTime(0, true) == Tm(0, 0, 0, 1, 0, 70, 4, 0, false, 0)
    ensures FromUtcTime(Tm(0, 0, 0, 1, 0, 70, 4, 0, false, 0)) == 0
  {
    hide JulianDayNumber, YearMonthDayOf, ValidDate;
    EpochDay();
    DateRoundTrip(YearMonthDay(1970, 1, 1));
  }

  lemma EpochDay()
    ensures Number(YearMonthDay(1970, 1, 1)) == 2440588 == JulianDayNumber(1970, 1, 1)
    ensures ValidDate(YearMonthDay(1970, 1, 1)) && WeekDay(2440588) == 4 && FillHms(0) == Hms(0, 0, 0)
  {
    assert Quot(14 - 1, 12) == 1;
    assert Quot(153 * 10 + 2, 5) == 306;
    assert Quot(6769, 4) == 1692 && Quot(6769, 100) == 67 && Quot(6769, 400) == 16;
  }

  // ---------------------------------------------------------- local time

  /** A change of offset: when it happens in UTC, and the new local time then. */
  datatype Transition = Transition(gmttime: int, localtime: int, localtimeIdx: nat)

  datatype Localtime = Localtime(gmtOffset: int, isDst: bool)

  datatype Zone = Zone(transitions: seq<Transition>, localtimes: seq<Localtime>)

  function Key(t: Transition, compareGmt: bool): int {
    if compareGmt then t.gmttime else t.localtime
  }

  ghost predicate Ascending(ts: seq<Transition>, compareGmt: bool) {
    forall i, j :: 0 <= i < j < |ts| ==> Key(ts[i], compareGmt) < Key(ts[j], compareGmt)
  }

  /** A table as readTimeZoneFile builds it, ascending by both keys. */
  ghost predicate ValidZone(z: Zone) {
    && z.localtimes != []
    && (forall i :: 0 <= i < |z.transitions| ==>
          var t := z.transitions[i];
          t.localtimeIdx < |z.localtimes| && t.localtime == t.gmttime + z.localtimes[t.localtimeIdx].gmtOffset)
    && Ascending(z.transitions, true)
    && Ascending(z.transitions, false)
  }

  /** The rule in force from transition i on; before the first transition, i is -1. */
  function Rule(z: Zone, i: int): Localtime
    requires z.localtimes != []
  {
    if 0 <= i < |z.transitions| && z.transitions[i].localtimeIdx < |z.localtimes|
    then z.localtimes[z.transitions[i].localtimeIdx]
    else z.localtimes[0]
  }

  /** The last transition that is not after the key, or -1. */
  function LastNotAfter(ts: seq<Transition>, key: int, compareGmt: bool): (i: int)
    ensures -1 <= i < |ts|
    ensures 0 <= i ==> Key(ts[i], compareGmt) <= key
    ensures forall j :: i < j < |ts| ==> key < Key(ts[j], compareGmt)
  {
    if ts == [] then -1
    else if Key(ts[|ts| - 1], compareGmt) <= key then |ts| - 1
    else LastNotAfter(ts[..|ts| - 1], key, compareGmt)
  }

  /** `std::lower_bound` over the table. */
  method LowerBound(ts: seq<Transition>, key: int, compareGmt: bool) returns (k: nat)
    requires Ascending(ts, compareGmt)
    ensures k <= |ts|
    ensures forall i :: 0 <= i < k ==> Key(ts[i], compareGmt) < key
    ensures forall i :: k <= i < |ts| ==> key <= Key(ts[i], compareGmt)
  {
    k := 0;
    var count := |ts|;
    while count > 0
      invariant 0 <= k <= k + count <= |ts|
      invariant forall i :: 0 <= i < k ==> Key(ts[i], compareGmt) < key
      invariant forall i :: k + count <= i < |ts| ==> key <= Key(ts[i], compareGmt)
      decreases count
    {
      var step := count / 2;
      if Key(ts[k + step], compareGmt) < key {
        k, count := k + step + 1, count - step - 1;
      } else {
        count := step;
      }
    }
  }

  lemma RuleMeans(z: Zone, key: int, compareGmt: bool)
    requires ValidZone(z)
    ensures (forall i :: 0 <= i < |z.transitions| ==> key < Key(z.transitions[i], compareGmt)) ==>
              Rule(z, LastNotAfter(z.transitions, key, compareGmt)) == z.localtimes[0]
    ensures forall i :: 0 <= i < |z.transitions| && Key(z.transitions[i], compareGmt) <= key
              && (i + 1 < |z.transitions| ==> key < Key(z.transitions[i + 1], compareGmt))
              ==> Rule(z, LastNotAfter(z.transitions, key, compareGmt)) == z.localtimes[z.transitions[i].localtimeIdx]
  {
    forall i | 0 <= i < |z.transitions| && Key(z.transitions[i], compareGmt) <= key
               && (i + 1 < |z.transitions| ==> key < Key(z.transitions[i + 1], compareGmt))
      ensures Rule(z, LastNotAfter(z.transitions, key, compareGmt)) == z.localtimes[z.transitions[i].localtimeIdx]
    {
      LastNotAfterIs(z.transitions, key, compareGmt, i);
    }
  }

  method FindLocaltime(z: Zone, key: int, compareGmt: bool) returns (local: Localtime)
    requires ValidZone(z)
    ensures local == Rule(z, LastNotAfter(z.transitions, key, compareGmt))
    // The rule of the last transition not after the key, and before all of them the first rule of the table.
    ensures (forall i :: 0 <= i < |z.transitions| ==> key < Key(z.transitions[i], compareGmt)) ==> local == z.localtimes[0]
    ensures forall i :: 0 <= i < |z.transitions| && Key(z.transitions[i], compareGmt) <= key
              && (i + 1 < |z.transitions| ==> key < Key(z.transitions[i + 1], compareGmt))
              ==> local == z.localtimes[z.transitions[i].localtimeIdx]
  {
    RuleMeans(z, key, compareGmt);
    if z.transitions == [] || key < Key(z.transitions[0], compareGmt) {
      local := z.localtimes[0];
    } else {
      var k := LowerBound(z.transitions, key, compareGmt);
      if k < |z.transitions| {
        if key != Key(z.transitions[k], compareGmt) {
          k := k - 1;
        }
        local := z.localtimes[z.transitions[k].localtimeIdx];
      } else {
        local := z.localtimes[z.transitions[|z.transitions| - 1].localtimeIdx];
      }
    }
  }

  function RuleAt(z: Zone, key: int, compareGmt: bool): Localtime
    requires z.localtimes != []
  {
    Rule(z, LastNotAfter(z.transitions, key, compareGmt))
  }

  function LocalTime(z: Zone, t: int): Tm
    requires z.localtimes != []
  {
    var local := RuleAt(z, t, true);
    ToUtcTime(t + local.gmtOffset, true).(isdst := local.isDst, gmtoff := local.gmtOffset)
  }

  lemma LocalFields(z: Zone, seconds: int)
    requires ValidZone(z)
    ensures var local, tm := Rule(z, LastNotAfter(z.transitions, seconds, true)), LocalTime(z, seconds);
            && RuleAt(z, seconds, true) == local
            && tm == ToUtcTime(seconds + local.gmtOffset, true).(isdst := local.isDst, gmtoff := local.gmtOffset)
            && tm.gmtoff == local.gmtOffset && tm.isdst == local.isDst
            && (Instant(seconds + local.gmtOffset) ==> ValidTm(tm) && FromUtcTime(tm) == seconds + local.gmtOffset)
  {
    hide ToUtcTime, Instant, LastNotAfter, Rule, JulianDayNumber;
    var local := RuleAt(z, seconds, true);
    if Instant(seconds + local.gmtOffset) {
      InstantRoundTrip(seconds + local.gmtOffset, true);
    }
  }

  method ToLocalTime(z: Zone, seconds: int) returns (localTime: Tm)
    requires ValidZone(z)
    ensures localTime == LocalTime(z, seconds)
    // The offset and the kind are those of the rule, and the fields are those of the shifted instant.
    ensures localTime.gmtoff == RuleAt(z, seconds, true).gmtOffset && localTime.isdst == RuleAt(z, seconds, true).isDst
    ensures Instant(seconds + localTime.gmtoff) ==>
              ValidTm(localTime) && FromUtcTime(localTime) == seconds + localTime.gmtoff
  {
    hide ToUtcTime, FromUtcTime, ValidTm, Instant, Rule, LastNotAfter, RuleAt, LocalTime;
    LocalFields(z, seconds);
    var local := FindLocaltime(z, seconds, true);
    var localSeconds := seconds + local.gmtOffset;
    localTime := ToUtcTime(localSeconds, true);
    localTime := localTime.(isdst := local.isDst, gmtoff := local.gmtOffset);
  }

  /** The repeated hour: the instant found is standard time and shows the same clock. */
  predicate NeedsRepair(z: Zone, tm: Tm)
    requires z.localtimes != []
  {
    var seconds := FromUtcTime(tm);
    var tryTm := LocalTime(z, seconds - RuleAt(z, seconds, false).gmtOffset);
    tm.isdst && !tryTm.isdst && tryTm.hour == tm.hour && tryTm.min == tm.min
  }

  /** The clocks agree when the two instants are in the same minute of their days. */
  lemma RepairIs(z: Zone, tm: Tm)
    requires z.localtimes != [] && 0 <= tm.sec < 60 && 0 <= tm.min < 60 && 0 <= tm.hour < 24
    ensures var s := FromUtcTime(tm);
            var t := s - RuleAt(z, s, false).gmtOffset;
            var rule := RuleAt(z, t, true);
            NeedsRepair(z, tm) <==>
              tm.isdst && !rule.isDst && (t + rule.gmtOffset) % SECONDS_PER_DAY / 60 == s % SECONDS_PER_DAY / 60
  {
    hide FromUtcTime, ToUtcTime, RuleAt, YearMonthDayOf, FillHms;
    var s := FromUtcTime(tm);
    var t := s - RuleAt(z, s, false).gmtOffset;
    var shown := t + RuleAt(z, t, true).gmtOffset;
    SplitTm(tm);
    FieldsOf(shown, true);
    ClockFields(tm.hour, tm.min, tm.sec);
    SameMinute(shown % SECONDS_PER_DAY, s % SECONDS_PER_DAY);
  }

  lemma SameMinute(a: int, b: int)
    requires 0 <= a < SECONDS_PER_DAY && 0 <= b < SECONDS_PER_DAY
    ensures FillHms(a).hour == FillHms(b).hour && FillHms(a).min == FillHms(b).min <==> a / 60 == b / 60
  {
  }

  function InstantOf(z: Zone, tm: Tm): int
    requires z.localtimes != []
  {
    var seconds := FromUtcTime(tm);
    seconds - (if NeedsRepair(z, tm) then 3600 else 0) - RuleAt(z, seconds, false).gmtOffset
  }

  method FromLocalTime(z: Zone, localTm: Tm) returns (t: int)
    requires ValidZone(z)
    ensures t == InstantOf(z, localTm)
  {
    hide FromUtcTime, LocalTime;
    var seconds := FromUtcTime(localTm);
    var local := FindLocaltime(z, seconds, false);
    if localTm.isdst {
      var tryTm := ToLocalTime(z, seconds - local.gmtOffset);
      if !tryTm.isdst && tryTm.hour == localTm.hour && tryTm.min == localTm.min {
        seconds := seconds - 3600;
      }
    }
    return seconds - local.gmtOffset;
  }

  // ------------------------------------------------- the local round trip

  /** Period i + 1 is not so short that the shift at its start reaches over its end. */
  predicate LongPeriod(z: Zone, i: int)
    requires z.localtimes != [] && -1 <= i && i + 2 < |z.transitions|
  {
    var next, after := z.transitions[i + 1], z.transitions[i + 2];
    && next.gmttime + Rule(z, i).gmtOffset <= after.localtime
    && next.gmttime + Rule(z, i).gmtOffset <= after.gmttime + Rule(z, i + 1).gmtOffset
  }

  ghost predicate LongPeriods(z: Zone)
    requires z.localtimes != []
  {
    forall i :: -1 <= i && i + 2 < |z.transitions| ==> LongPeriod(z, i)
  }

  /** t shows a local time that the next rule shows again. */
  predicate InFold(z: Zone, t: int)
    requires z.localtimes != []
  {
    var i := LastNotAfter(z.transitions, t, true);
    i + 1 < |z.transitions| && z.transitions[i + 1].localtime <= t + Rule(z, i).gmtOffset
  }

  /** The change after rule i is the end of daylight saving, by exactly one hour. */
  predicate EndsDaylightSaving(z: Zone, i: int)
    requires z.localtimes != []
  {
    Rule(z, i).isDst && !Rule(z, i + 1).isDst && Rule(z, i).gmtOffset - Rule(z, i + 1).gmtOffset == 3600
  }

  lemma LastNotAfterIs(ts: seq<Transition>, key: int, compareGmt: bool, i: int)
    requires Ascending(ts, compareGmt) && -1 <= i < |ts|
    requires 0 <= i ==> Key(ts[i], compareGmt) <= key
    requires i + 1 < |ts| ==> key < Key(ts[i + 1], compareGmt)
    ensures LastNotAfter(ts, key, compareGmt) == i
  {
    var j := LastNotAfter(ts, key, compareGmt);
    if i + 1 < |ts| {
      assert forall k :: i < k < |ts| ==> Key(ts[i + 1], compareGmt) <= Key(ts[k], compareGmt);
    }
  }

  /** The search by local time finds the rule in force, or in a fold the next one. */
  lemma LocalSearch(z: Zone, t: int, i: int)
    requires ValidZone(z) && LongPeriods(z) && i == LastNotAfter(z.transitions, t, true)
    ensures RuleAt(z, t + Rule(z, i).gmtOffset, false) == Rule(z, if InFold(z, t) then i + 1 else i)
  {
    var ts := z.transitions;
    var local := t + Rule(z, i).gmtOffset;
    if i + 1 < |ts| {
      assert t < Key(ts[i + 1], true);
    }
    if i + 2 < |ts| {
      assert LongPeriod(z, i);
    }
    LastNotAfterIs(ts, local, false, if InFold(z, t) then i + 1 else i);
  }

  /** In a fold, the instant with the next rule's offset lies in the next period. */
  lemma SecondPass(z: Zone, t: int, i: int)
    requires ValidZone(z) && LongPeriods(z) && i == LastNotAfter(z.transitions, t, true) && InFold(z, t)
    ensures RuleAt(z, t + Rule(z, i).gmtOffset - Rule(z, i + 1).gmtOffset, true) == Rule(z, i + 1)
    ensures Rule(z, i + 1).gmtOffset < Rule(z, i).gmtOffset
  {
    var ts := z.transitions;
    assert t < Key(ts[i + 1], true);
    if i + 2 < |ts| {
      assert LongPeriod(z, i);
    }
    LastNotAfterIs(ts, t + Rule(z, i).gmtOffset - Rule(z, i + 1).gmtOffset, true, i + 1);
  }

  /** The clock of a broken-down time does not depend on the flags of the zone. */
  lemma ClockOf(z: Zone, t: int, local: Localtime)
    requires z.localtimes != [] && RuleAt(z, t, true) == local
    requires Instant(t + local.gmtOffset)
    ensures LocalTime(z, t).isdst == local.isDst && FromUtcTime(LocalTime(z, t)) == t + local.gmtOffset
    ensures LocalTime(z, t).hour == ToUtcTime(t + local.gmtOffset, true).hour
    ensures LocalTime(z, t).min == ToUtcTime(t + local.gmtOffset, true).min
  {
    hide RuleAt, ToUtcTime, JulianDayNumber, ValidTm;
    InstantRoundTrip(t + local.gmtOffset, true);
  }

  /** Outside a fold the local time leads straight back. */
  lemma OutsideFold(z: Zone, t: int, i: int)
    requires ValidZone(z) && LongPeriods(z) && i == LastNotAfter(z.transitions, t, true)
    requires Instant(t + Rule(z, i).gmtOffset) && !InFold(z, t)
    ensures InstantOf(z, LocalTime(z, t)) == t
  {
    hide LocalTime, FromUtcTime, ToUtcTime, LastNotAfter, InFold, Rule, LongPeriods, Instant;
    LocalSearch(z, t, i);
    ClockOf(z, t, Rule(z, i));
    assert !NeedsRepair(z, LocalTime(z, t));
  }

  /** In a fold it leads to the second pass, or an hour before it if that is standard time. */
  lemma InsideFold(z: Zone, t: int, i: int)
    requires ValidZone(z) && LongPeriods(z) && i == LastNotAfter(z.transitions, t, true)
    requires Instant(t + Rule(z, i).gmtOffset) && InFold(z, t)
    ensures var repair := if Rule(z, i).isDst && !Rule(z, i + 1).isDst then 3600 else 0;
            InstantOf(z, LocalTime(z, t)) == t + Rule(z, i).gmtOffset - Rule(z, i + 1).gmtOffset - repair
    ensures Rule(z, i + 1).gmtOffset < Rule(z, i).gmtOffset
  {
    hide LocalTime, FromUtcTime, ToUtcTime, LastNotAfter, InFold, Rule, LongPeriods, Instant;
    var here, next := Rule(z, i), Rule(z, i + 1);
    LocalSearch(z, t, i);
    SecondPass(z, t, i);
    ClockOf(z, t, here);
    ClockOf(z, t + here.gmtOffset - next.gmtOffset, next);
    assert NeedsRepair(z, LocalTime(z, t)) <==> here.isDst && !next.isDst;
  }

  /**
   * Instant to local time and back gives the instant exactly when it is not in
   * the first pass of a repeated stretch, or that stretch is the one hour at
   * the end of daylight saving.
   */
  lemma LocalRoundTripIff(z: Zone, t: int)
    requires ValidZone(z) && LongPeriods(z)
    requires Instant(t + RuleAt(z, t, true).gmtOffset)
    ensures InstantOf(z, LocalTime(z, t)) == t <==>
            (InFold(z, t) ==> EndsDaylightSaving(z, LastNotAfter(z.transitions, t, true)))
  {
    hide InstantOf, LocalTime, Rule, LastNotAfter, LongPeriods, InFold;
    var i := LastNotAfter(z.transitions, t, true);
    if InFold(z, t) {
      InsideFold(z, t, i);
    } else {
      OutsideFold(z, t, i);
    }
  }

  /** Every backward change of the table ends daylight saving by one hour. */
  ghost predicate OneHourFolds(z: Zone)
    requires z.localtimes != []
  {
    forall i :: -1 <= i && i + 1 < |z.transitions| && Rule(z, i + 1).gmtOffset < Rule(z, i).gmtOffset ==>
      EndsDaylightSaving(z, i)
  }

  /** The round trip for such a table, at every instant, in both passes of a repeated hour. */
  lemma LocalRoundTrip(z: Zone, t: int)
    requires ValidZone(z) && LongPeriods(z) && OneHourFolds(z)
    requires Instant(t + RuleAt(z, t, true).gmtOffset)
    ensures InstantOf(z, LocalTime(z, t)) == t
  {
    hide InstantOf, LocalTime;
    LocalRoundTripIff(z, t);
    var i := LastNotAfter(z.transitions, t, true);
    if InFold(z, t) {
      SecondPass(z, t, i);
    }
  }

  /** Lord Howe Island ends daylight saving by half an hour; the first pass comes back wrong. */
  lemma HalfHourFoldFails()
    ensures var y := Zone([Transition(-10_000_000, -9_960_400, 1), Transition(0, 37800, 0)],
                          [Localtime(37800, false), Localtime(39600, true)]);
            ValidZone(y) && InstantOf(y, LocalTime(y, -900)) != -900
  {
    var y := Zone([Transition(-10_000_000, -9_960_400, 1), Transition(0, 37800, 0)],
                  [Localtime(37800, false), Localtime(39600, true)]);
    hide InstantOf, LocalTime;
    assert LastNotAfter(y.transitions, -900, true) == 0;
    assert LongPeriods(y);
    LocalRoundTripIff(y, -900);
  }
}
