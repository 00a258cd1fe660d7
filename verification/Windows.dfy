/** Quota windows: the calendar arithmetic of GetWindowBounds.  Times are nanoseconds since the Unix epoch, in UTC. */
module Windows {
  import opened Arithmetic
  import opened Clock

  /** 2099-12-31 23:59:59 UTC. */
  const FAR_FUTURE: Time := 4_102_444_799 * SECOND

  // ---- The Gregorian calendar, in days and months since 1 January 1970 ----------------------

  predicate IsLeapYear(year: int)
  {
    year % 4 == 0 && (year % 100 != 0 || year % 400 == 0)
  }

  /** Days in month `m`, counted from January 1970; negative months lie before it. */
  function DaysIn(m: int): (n: nat)
    ensures 28 <= n <= 31
  {
    var year, month := 1970 + m / 12, m % 12 + 1;
    if month == 2 then (if IsLeapYear(year) then 29 else 28)
    else if month == 4 || month == 6 || month == 9 || month == 11 then 30
    else 31
  }

  /** First day of month `m`. */
  function MonthStart(m: nat): nat
  {
    if m == 0 then 0 else MonthStart(m - 1) + DaysIn(m - 1)
  }

  function MonthFrom(day: nat, m: nat): (r: nat)
    requires MonthStart(m) <= day
    ensures MonthStart(r) <= day < MonthStart(r + 1)
    decreases day - MonthStart(m)
  {
    if day < MonthStart(m + 1) then m else MonthFrom(day, m + 1)
  }

  /** The month a day falls in. */
  function MonthOf(day: nat): (m: nat)
    ensures MonthStart(m) <= day < MonthStart(m + 1)
  {
    MonthFrom(day, 0)
  }

  lemma {:induction false} MonthStartIncreases(a: nat, b: nat)
    requires a < b
    ensures MonthStart(a + 1) <= MonthStart(b)
    decreases b - a
  {
    if a + 1 < b {
      MonthStartIncreases(a, b - 1);
    }
  }

  lemma MonthUnique(day: nat, m: nat)
    requires MonthStart(m) <= day < MonthStart(m + 1)
    ensures MonthOf(day) == m
  {
    var r := MonthOf(day);
    if r < m {
      MonthStartIncreases(r, m);
    } else if m < r {
      MonthStartIncreases(m, r);
    }
  }

  /** Leap years up to and including a year. */
  function LeapYears(year: nat): int
  {
    year / 4 - year / 100 + year / 400
  }

  /** Month by month, MonthStart(12 * k) is New Year of 1970 + k: 365 days a year, and one for each leap year passed. */
  lemma {:induction false} NewYear(k: nat)
    ensures MonthStart(12 * k) == 365 * k + LeapYears(1969 + k) - LeapYears(1969)
  {
    hide IsLeapYear, LeapYears, DaysIn;
    if k > 0 {
      NewYear(k - 1);
      YearLength(k - 1);
      LeapYearsStep(1968 + k);
      assert 12 * (k - 1) + 12 == 12 * k;
    }
  }

  lemma LeapYearsStep(year: nat)
    ensures LeapYears(year + 1) == LeapYears(year) + if IsLeapYear(year + 1) then 1 else 0
  {
    FloorStep(year, 4);
    FloorStep(year, 100);
    FloorStep(year, 400);
    if (year + 1) % 400 == 0 {
      RemainderUnique(year + 1, 100, (year + 1) / 400 * 4, 0);
    }
    if (year + 1) % 100 == 0 {
      RemainderUnique(year + 1, 4, (year + 1) / 100 * 25, 0);
    }
  }

  /** Days in the month with index `j` of a year, and in all months before it. */
  function MonthLength(leap: bool, j: nat): nat
  {
    if j == 1 then (if leap then 29 else 28)
    else if j == 3 || j == 5 || j == 8 || j == 10 then 30
    else 31
  }

  function DaysBefore(leap: bool, j: nat): nat
  {
    if j == 0 then 0 else DaysBefore(leap, j - 1) + MonthLength(leap, j - 1)
  }

  lemma MonthInYear(k: nat, j: nat)
    requires j < 12
    ensures DaysIn(12 * k + j) == MonthLength(IsLeapYear(1970 + k), j)
  {
    hide IsLeapYear;
    assert (12 * k + j) / 12 == k;
  }

  lemma {:induction false} YearPart(k: nat, j: nat)
    requires j <= 12
    ensures MonthStart(12 * k + j) == MonthStart(12 * k) + DaysBefore(IsLeapYear(1970 + k), j)
  {
    hide IsLeapYear, DaysIn, MonthLength;
    if j > 0 {
      YearPart(k, j - 1);
      MonthInYear(k, j - 1);
    }
  }

  lemma YearLength(k: nat)
    ensures MonthStart(12 * k + 12) == MonthStart(12 * k) + if IsLeapYear(1970 + k) then 366 else 365
  {
    hide IsLeapYear, MonthStart;
    YearPart(k, 12);
    assert DaysBefore(true, 12) == 366 && DaysBefore(false, 12) == 365;
  }

  /** The end of total windows is one second before the year 2100. */
  lemma FarFutureIs()
    ensures FAR_FUTURE == MonthStart(12 * 130) * DAY - SECOND
  {
    hide MonthStart;
    NewYear(130);
  }

  // ---- Window bounds -----------------------------------------------------------------------

  datatype LimitType = Daily | Weekly | Monthly | Rolling5h | Total | UnknownType

  datatype WindowMode = Fixed | Sliding

  datatype Window = Window(start: Time, end: Time)

  datatype Bounds = Ok(window: Window) | UnknownLimitType

  function DayOf(t: nat): nat
  {
    t / DAY
  }

  /** Monday is 1 and Sunday is 7; day 0 was a Thursday. */
  function Weekday(day: nat): (w: nat)
    ensures 1 <= w <= 7
  {
    var w := (day + 4) % 7;
    if w == 0 then 7 else w
  }

  /** AddDate(0, -1, 0): the same day number and clock time one month earlier; surplus days run over into the next month. */
  function MonthEarlier(now: nat): Time
  {
    var m := MonthOf(DayOf(now));
    var previous := MonthStart(m) - DaysIn(m - 1);
    (previous + (DayOf(now) - MonthStart(m))) * DAY + now % DAY
  }

  function GetWindowBounds(limitType: LimitType, mode: WindowMode, now: nat, startsAt: Time): Bounds
  {
    match limitType
    case Daily =>
      if mode == Fixed then
        var start := DayOf(now) * DAY;
        Ok(Window(start, start + 24 * HOUR))
      else Ok(Window(now - 24 * HOUR, now))
    case Weekly =>
      if mode == Fixed then
        var start := (DayOf(now) - (Weekday(DayOf(now)) - 1)) * DAY;
        Ok(Window(start, start + 7 * DAY))
      else Ok(Window(now - 7 * DAY, now))
    case Monthly =>
      if mode == Fixed then
        var m := MonthOf(DayOf(now));
        Ok(Window(MonthStart(m) * DAY, MonthStart(m + 1) * DAY))
      else Ok(Window(MonthEarlier(now), now))
    case Rolling5h =>
      if mode == Fixed then
        var unix := now / SECOND;
        var start := unix / 18000 * 18000 * SECOND;
        Ok(Window(start, start + 5 * HOUR))
      else Ok(Window(now - 5 * HOUR, now))
    case Total => Ok(Window(startsAt, FAR_FUTURE))
    case UnknownType => UnknownLimitType
  }

  predicate In(w: Window, t: Time)
  {
    w.start <= t < w.end
  }

  /** The window of a known limit type. */
  function WindowAt(limitType: LimitType, mode: WindowMode, now: nat, startsAt: Time): Window
    requires limitType != UnknownType
  {
    GetWindowBounds(limitType, mode, now, startsAt).window
  }

  // ---- Fixed windows partition time --------------------------------------------------------

  predicate Calendar(limitType: LimitType)
  {
    limitType != Total && limitType != UnknownType
  }

  /** The days of a span of whole days. */
  lemma DaysOfSpan(t: nat, first: int, n: nat)
    requires first * DAY <= t < (first + n) * DAY
    ensures first <= DayOf(t) < first + n
  {
    FloorBounds(t, DAY);
    MulMonotone(DayOf(t) + 1, first, DAY);
    MulMonotone(first + n, DayOf(t), DAY);
  }

  /** The Monday on or before a day. */
  function Monday(day: nat): int
  {
    day - (Weekday(day) - 1)
  }

  lemma MondayOfWeek(day: nat, first: int)
    requires (first + 3) % 7 == 0 && first <= day < first + 7
    ensures Monday(day) == first
  {
    assert Weekday(day) - 1 == (day + 3) % 7;
  }

  lemma MondayIsMonday(day: nat)
    ensures (Monday(day) + 3) % 7 == 0 && Monday(day) <= day < Monday(day) + 7
  {
    assert Weekday(day) - 1 == (day + 3) % 7;
  }

  lemma Rolling5hStart(now: nat)
    ensures now / SECOND / 18000 * 18000 * SECOND == now / (5 * HOUR) * (5 * HOUR)
  {
    var unix := now / SECOND;
    var q := unix / 18000;
    FloorBounds(now, SECOND);
    FloorBounds(unix, 18000);
    FloorUnique(now, 5 * HOUR, q);
  }

  lemma FixedWindowContains(limitType: LimitType, now: nat, startsAt: Time)
    requires Calendar(limitType)
    ensures In(WindowAt(limitType, Fixed, now, startsAt), now)
  {
    hide MonthOf, MonthStart, Weekday;
    FloorBounds(now, DAY);
    match limitType
    case Daily =>
    case Weekly =>
      MondayIsMonday(DayOf(now));
      MulMonotone(DayOf(now) + 1, Monday(DayOf(now)) + 7, DAY);
    case Monthly =>
      var m := MonthOf(DayOf(now));
      MulMonotone(DayOf(now) + 1, MonthStart(m + 1), DAY);
    case Rolling5h =>
      Rolling5hStart(now);
      FloorBounds(now, 5 * HOUR);
  }

  const FIRST_MONDAY: Time := 4 * DAY

  /** Whole days, weeks from Monday, calendar months, and multiples of five hours. */
  ghost predicate Aligned(limitType: LimitType, w: Window)
  {
    match limitType
    case Daily => w.start % DAY == 0 && w.end == w.start + DAY
    case Weekly => (w.start - FIRST_MONDAY) % (7 * DAY) == 0 && w.end == w.start + 7 * DAY
    case Monthly => exists m: nat :: w == Window(MonthStart(m) * DAY, (MonthStart(m) + DaysIn(m)) * DAY)
    case Rolling5h => w.start % (5 * HOUR) == 0 && w.end == w.start + 5 * HOUR
    case _ => false
  }

  /** The fixed window of a moment is the one aligned window it lies in. */
  lemma FixedWindowIs(limitType: LimitType, now: nat, startsAt: Time, w: Window)
    requires Calendar(limitType)
    ensures WindowAt(limitType, Fixed, now, startsAt) == w <==> In(w, now) && Aligned(limitType, w)
  {
    hide MonthOf, MonthStart, Weekday, Aligned;
    match limitType
    case Daily => DayIs(now, startsAt, w);
    case Weekly => WeekIs(now, startsAt, w);
    case Monthly => MonthIs(now, startsAt, w);
    case Rolling5h => FiveHoursIs(now, startsAt, w);
  }

  lemma DayIs(now: nat, startsAt: Time, w: Window)
    ensures WindowAt(Daily, Fixed, now, startsAt) == w <==> In(w, now) && Aligned(Daily, w)
  {
    FloorAligned(now, DAY);
    if In(w, now) && Aligned(Daily, w) {
      AlignedIsFloor(now, DAY, w.start);
    }
  }

  lemma FiveHoursIs(now: nat, startsAt: Time, w: Window)
    ensures WindowAt(Rolling5h, Fixed, now, startsAt) == w <==> In(w, now) && Aligned(Rolling5h, w)
  {
    Rolling5hStart(now);
    FloorAligned(now, 5 * HOUR);
    if In(w, now) && Aligned(Rolling5h, w) {
      AlignedIsFloor(now, 5 * HOUR, w.start);
    }
  }

  lemma WeekIs(now: nat, startsAt: Time, w: Window)
    ensures WindowAt(Weekly, Fixed, now, startsAt) == w <==> In(w, now) && Aligned(Weekly, w)
  {
    hide Weekday;
    MondayIsMonday(DayOf(now));
    var monday := Monday(DayOf(now));
    FixedWindowContains(Weekly, now, startsAt);
    assert WindowAt(Weekly, Fixed, now, startsAt) == Window(monday * DAY, monday * DAY + 7 * DAY);
    hide Monday, DayOf, GetWindowBounds;
    MondayAligned(monday);
    if In(w, now) && Aligned(Weekly, w) {
      var first := AlignedMonday(w.start);
      DaysOfSpan(now, first, 7);
      MondayOfWeek(DayOf(now), first);
    }
  }

  lemma MondayAligned(day: int)
    requires (day + 3) % 7 == 0
    ensures (day * DAY - FIRST_MONDAY) % (7 * DAY) == 0
  {
    var q := (day + 3) / 7;
    assert day * DAY - FIRST_MONDAY == (q - 1) * (7 * DAY);
  }

  lemma AlignedMonday(start: Time) returns (day: int)
    requires (start - FIRST_MONDAY) % (7 * DAY) == 0
    ensures (day + 3) % 7 == 0 && start == day * DAY
  {
    var q := (start - FIRST_MONDAY) / (7 * DAY);
    day := 7 * q + 4;
    assert day + 3 == 7 * (q + 1);
  }

  lemma MonthIs(now: nat, startsAt: Time, w: Window)
    ensures WindowAt(Monthly, Fixed, now, startsAt) == w <==> In(w, now) && Aligned(Monthly, w)
  {
    hide MonthOf, DaysIn;
    FixedWindowContains(Monthly, now, startsAt);
    var month := MonthOf(DayOf(now));
    assert MonthStart(month + 1) == MonthStart(month) + DaysIn(month);
    if In(w, now) && Aligned(Monthly, w) {
      var m: nat :| w == Window(MonthStart(m) * DAY, (MonthStart(m) + DaysIn(m)) * DAY);
      assert MonthStart(m + 1) == MonthStart(m) + DaysIn(m);
      DaysOfSpan(now, MonthStart(m), DaysIn(m));
      MonthUnique(DayOf(now), m);
    }
  }

  /** Every moment of a fixed window has that same window. */
  lemma FixedWindowPartition(limitType: LimitType, now: nat, t: nat, startsAt: Time)
    requires Calendar(limitType) && In(WindowAt(limitType, Fixed, now, startsAt), t)
    ensures WindowAt(limitType, Fixed, t, startsAt) == WindowAt(limitType, Fixed, now, startsAt)
  {
    match limitType
    case Daily => FloorUnique(t, DAY, DayOf(now));
    case Weekly => WeekPartition(now, t, startsAt);
    case Monthly => MonthPartition(now, t, startsAt);
    case Rolling5h =>
      Rolling5hStart(now);
      Rolling5hStart(t);
      FloorUnique(t, 5 * HOUR, now / (5 * HOUR));
  }

  lemma WeekPartition(now: nat, t: nat, startsAt: Time)
    requires In(WindowAt(Weekly, Fixed, now, startsAt), t)
    ensures WindowAt(Weekly, Fixed, t, startsAt) == WindowAt(Weekly, Fixed, now, startsAt)
  {
    var first := Monday(DayOf(now));
    assert first * DAY + 7 * DAY == (first + 7) * DAY;
    DaysOfSpan(t, first, 7);
    MondayIsMonday(DayOf(now));
    MondayOfWeek(DayOf(t), first);
  }

  lemma MonthPartition(now: nat, t: nat, startsAt: Time)
    requires In(WindowAt(Monthly, Fixed, now, startsAt), t)
    ensures WindowAt(Monthly, Fixed, t, startsAt) == WindowAt(Monthly, Fixed, now, startsAt)
  {
    hide MonthOf;
    var m := MonthOf(DayOf(now));
    DaysOfSpan(t, MonthStart(m), MonthStart(m + 1) - MonthStart(m));
    MonthUnique(DayOf(t), m);
  }

  // ---- Sliding windows ---------------------------------------------------------------------

  /** How far the sliding windows of fixed length reach back, in nanoseconds. */
  function Span(limitType: LimitType): int
  {
    match limitType
    case Daily => 86_400_000_000_000
    case Weekly => 7 * 86_400_000_000_000
    case Rolling5h => 5 * 3_600_000_000_000
    case _ => 0
  }

  /** A sliding window holds the moments of its span before now, and a total one those of the subscription. */
  lemma SlidingContains(limitType: LimitType, now: nat, t: Time, startsAt: Time)
    requires Calendar(limitType) && limitType != Monthly
    ensures In(WindowAt(limitType, Sliding, now, startsAt), t) <==> now - Span(limitType) <= t < now
  {
  }

  lemma TotalContains(mode: WindowMode, now: nat, t: Time, startsAt: Time)
    ensures In(WindowAt(Total, mode, now, startsAt), t) <==> startsAt <= t < FAR_FUTURE
  {
  }

  /** The start of a sliding window never moves back, except for monthly windows. */
  lemma SlidingStartMonotone(limitType: LimitType, a: nat, b: nat, startsAt: Time)
    requires Calendar(limitType) && limitType != Monthly && a <= b
    ensures WindowAt(limitType, Sliding, a, startsAt).start <= WindowAt(limitType, Sliding, b, startsAt).start
  {
  }

  /** One month earlier is as many days earlier as the previous month has. */
  lemma MonthEarlierIs(now: nat)
    ensures MonthEarlier(now) == now - DaysIn(MonthOf(DayOf(now)) - 1) * DAY
  {
    hide MonthOf, MonthStart, DaysIn;
  }

  lemma March31AndApril1(k: nat)
    ensures var april := MonthStart(12 * k + 3);
            && april == MonthStart(12 * k + 2) + 31 > 0
            && MonthOf(april - 1) == 12 * k + 2 && MonthOf(april) == 12 * k + 3
  {
    hide MonthStart, MonthOf, IsLeapYear;
    MonthInYear(k, 2);
    NextMonth(12 * k + 2);
    NextMonth(12 * k + 3);
    var april := MonthStart(12 * k + 3);
    MonthUnique(april - 1, 12 * k + 2);
    MonthUnique(april, 12 * k + 3);
  }

  lemma NextMonth(m: nat)
    ensures MonthStart(m + 1) == MonthStart(m) + DaysIn(m) > MonthStart(m)
  {
    hide DaysIn;
  }

  /**
    * Monthly windows do move back, in every year: on 31 March the window starts on 3 March, on 2 March in a leap year; on
    * 1 April it starts on 1 March.
    */
  lemma SlidingMonthMovesBack(k: nat, startsAt: Time)
    ensures var march, april := MonthStart(12 * k + 2), MonthStart(12 * k + 3);
            && april == march + 31
            && WindowAt(Monthly, Sliding, (april - 1) * DAY, startsAt) ==
               Window((march + if IsLeapYear(1970 + k) then 1 else 2) * DAY, (april - 1) * DAY)
            && WindowAt(Monthly, Sliding, april * DAY, startsAt) == Window(march * DAY, april * DAY)
  {
    hide *;
    March31AndApril1(k);
    FebruaryAndMarch(k);
    var march, april, leap := MonthStart(12 * k + 2), MonthStart(12 * k + 3), IsLeapYear(1970 + k);
    assert 12 * k + 2 - 1 == 12 * k + 1 && 12 * k + 3 - 1 == 12 * k + 2;
    SlidingMonthAtMidnight(april - 1, startsAt);
    assert april - 1 - DaysIn(12 * k + 1) == march + if leap then 1 else 2;
    SlidingMonthAtMidnight(april, startsAt);
    assert april - DaysIn(12 * k + 2) == march;
  }

  lemma FebruaryAndMarch(k: nat)
    ensures DaysIn(12 * k + 1) == (if IsLeapYear(1970 + k) then 29 else 28) && DaysIn(12 * k + 2) == 31
  {
    hide IsLeapYear;
    MonthInYear(k, 1);
    MonthInYear(k, 2);
  }

  lemma SlidingMonthAtMidnight(day: nat, startsAt: Time)
    ensures WindowAt(Monthly, Sliding, day * DAY, startsAt) == Window((day - DaysIn(MonthOf(day) - 1)) * DAY, day * DAY)
  {
    hide MonthOf, MonthStart, MonthEarlier, DaysIn;
    DayOfMidnight(day);
    MonthEarlierIs(day * DAY);
  }

  lemma DayOfMidnight(day: nat)
    ensures DayOf(day * DAY) == day
  {
    FloorUnique(day * DAY, DAY, day);
  }

  /** 31 March and 1 April 1970. */
  lemma FirstSpring(startsAt: Time)
    ensures WindowAt(Monthly, Sliding, 89 * DAY, startsAt) == Window(61 * DAY, 89 * DAY)
    ensures WindowAt(Monthly, Sliding, 90 * DAY, startsAt) == Window(59 * DAY, 90 * DAY)
  {
    assert MonthStart(2) == 59 && MonthStart(3) == 90 && !IsLeapYear(1970);
    hide MonthStart;
    SlidingMonthMovesBack(0, startsAt);
    hide GetWindowBounds;
  }
}
