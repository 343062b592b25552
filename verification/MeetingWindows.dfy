/** Splitting a meeting search range into windows of one calendar month. */
module MeetingWindows {
  import opened Records

  const DAY := 86_400_000
  const RECENT_RANGE := 30 * DAY

  // ---------- the calendar of ECMA-262 ----------

  predicate Leap(year: int) { year % 4 == 0 && (year % 100 != 0 || year % 400 == 0) }

  function YearLength(year: int): int { if Leap(year) then 366 else 365 }

  function DayFromYear(year: int): int {
    365 * (year - 1970) + (year - 1969) / 4 - (year - 1901) / 100 + (year - 1601) / 400
  }

  lemma YearsAbut(year: int)
    ensures DayFromYear(year + 1) == DayFromYear(year) + YearLength(year)
  {
    Every4(year);
    Every100(year);
    Every400(year);
    Centuries(year);
  }

  lemma Every4(year: int)
    ensures (year + 1 - 1969) / 4 == (year - 1969) / 4 + if year % 4 == 0 then 1 else 0
  {
  }

  lemma Every100(year: int)
    ensures (year + 1 - 1901) / 100 == (year - 1901) / 100 + if year % 100 == 0 then 1 else 0
  {
  }

  lemma Every400(year: int)
    ensures (year + 1 - 1601) / 400 == (year - 1601) / 400 + if year % 400 == 0 then 1 else 0
  {
  }

  lemma Centuries(year: int)
    ensures year % 400 == 0 ==> year % 100 == 0
    ensures year % 100 == 0 ==> year % 4 == 0
  {
  }

  function MonthLength(year: int, month: nat): (days: nat)
    requires month < 12
    ensures 28 <= days <= 31
    ensures days == 31 <==> month in {0, 2, 4, 6, 7, 9, 11}
    ensures days < 30 <==> month == 1
  {
    if month == 1 then (if Leap(year) then 29 else 28)
    else if month == 3 || month == 5 || month == 8 || month == 10 then 30 else 31
  }

  /** Days of the year before the month. */
  function MonthStart(year: int, month: nat): nat
    requires month <= 12
  {
    if month == 0 then 0 else MonthStart(year, month - 1) + MonthLength(year, month - 1)
  }

  lemma TwelveMonths(year: int)
    ensures MonthStart(year, 12) == YearLength(year)
  {
    assert MonthStart(year, 1) == 31;
    assert MonthStart(year, 2) == 59 + if Leap(year) then 1 else 0;
    assert MonthStart(year, 4) == MonthStart(year, 2) + 61;
    assert MonthStart(year, 6) == MonthStart(year, 4) + 61;
    assert MonthStart(year, 8) == MonthStart(year, 6) + 62;
    assert MonthStart(year, 10) == MonthStart(year, 8) + 61;
  }

  /** A UTC date; `time` is the milliseconds since midnight. */
  datatype Civil = Civil(year: int, month: nat, day: nat, time: int)

  predicate ValidCivil(c: Civil) {
    c.month < 12 && 1 <= c.day <= MonthLength(c.year, c.month) && 0 <= c.time < DAY
  }

  function DayNumber(c: Civil): int
    requires c.month < 12
  {
    DayFromYear(c.year) + MonthStart(c.year, c.month) + c.day - 1
  }

  function ToInstant(c: Civil): Instant
    requires c.month < 12
  {
    DayNumber(c) * DAY + c.time
  }

  function YearUp(day: int, guess: int): (year: int)
    requires DayFromYear(guess) <= day
    ensures DayFromYear(year) <= day < DayFromYear(year + 1)
    decreases day - DayFromYear(guess)
  {
    YearsAbut(guess);
    if DayFromYear(guess + 1) <= day then YearUp(day, guess + 1) else guess
  }

  function YearDown(day: int, guess: int): (year: int)
    requires day < DayFromYear(guess + 1)
    ensures DayFromYear(year) <= day < DayFromYear(year + 1)
    decreases DayFromYear(guess + 1) - day
  {
    YearsAbut(guess);
    if day < DayFromYear(guess) then YearDown(day, guess - 1) else guess
  }

  function YearFrom(day: int): (year: int)
    ensures DayFromYear(year) <= day < DayFromYear(year + 1)
  {
    if DayFromYear(1970) <= day then YearUp(day, 1970) else YearDown(day, 1969)
  }

  function MonthFrom(year: int, dayOfYear: nat, guess: nat): (month: nat)
    requires guess < 12 && MonthStart(year, guess) <= dayOfYear < YearLength(year)
    ensures month < 12 && MonthStart(year, month) <= dayOfYear < MonthStart(year, month) + MonthLength(year, month)
    decreases 12 - guess
  {
    TwelveMonths(year);
    if dayOfYear < MonthStart(year, guess) + MonthLength(year, guess) then guess
    else MonthFrom(year, dayOfYear, guess + 1)
  }

  /** The UTC date of an instant. */
  function FromInstant(t: Instant): (c: Civil)
    ensures ValidCivil(c) && ToInstant(c) == t
  {
    var day := t / DAY;
    var year := YearFrom(day);
    YearsAbut(year);
    var dayOfYear := day - DayFromYear(year);
    var month := MonthFrom(year, dayOfYear, 0);
    Civil(year, month, dayOfYear - MonthStart(year, month) + 1, t % DAY)
  }

  // ---------- one month later ----------

  /** `Date.UTC` reads the years 0 to 99 as 1900 to 1999 (section 21.4.3.4 of ECMA-262). */
  function FullYear(year: int): int { if 0 <= year <= 99 then 1900 + year else year }

  function TargetYear(c: Civil): int { if c.month == 11 then c.year + 1 else c.year }

  function AddMonth(c: Civil): (later: Civil)
    requires ValidCivil(c)
    ensures ValidCivil(later)
  {
    var year := FullYear(TargetYear(c));
    var month := (c.month + 1) % 12;
    Civil(year, month, Min(c.day, MonthLength(year, month)), c.time)
  }

  function MonthLater(t: Instant): Instant { ToInstant(AddMonth(FromInstant(t))) }

  /** Whether the month after `t` falls into a year that `Date.UTC` misreads. */
  predicate Misread(t: Instant) { 0 <= TargetYear(FromInstant(t)) <= 99 }

  lemma {:induction false} YearsGrow(a: int, b: int)
    requires a <= b
    ensures DayFromYear(b) >= DayFromYear(a) + 365 * (b - a)
    decreases b - a
  {
    if a < b {
      YearsGrow(a, b - 1);
      YearsAbut(b - 1);
    }
  }

  lemma DayOfYearFits(c: Civil)
    requires ValidCivil(c)
    ensures DayFromYear(c.year) <= DayNumber(c) < DayFromYear(c.year + 1)
  {
    MonthsGrow(c.year, c.month + 1, 12);
    TwelveMonths(c.year);
    YearsAbut(c.year);
  }

  lemma {:induction false} MonthsGrow(year: int, a: nat, b: nat)
    requires a <= b <= 12
    ensures MonthStart(year, a) <= MonthStart(year, b)
    decreases b
  {
    if a < b { MonthsGrow(year, a, b - 1); }
  }

  lemma NextMonthStart(c: Civil, year: int)
    requires ValidCivil(c) && year == TargetYear(c)
    ensures DayFromYear(year) + MonthStart(year, (c.month + 1) % 12)
            == DayFromYear(c.year) + MonthStart(c.year, c.month) + MonthLength(c.year, c.month)
  {
    if c.month == 11 {
      TwelveMonths(c.year);
      YearsAbut(c.year);
    }
  }

  lemma DaysToNextMonth(c: Civil)
    requires ValidCivil(c)
    ensures 28 <= DayNumber(AddMonth(c)) - DayNumber(c)
    ensures DayNumber(AddMonth(c)) - DayNumber(c) <= 31 <==> !(0 <= TargetYear(c) <= 99)
  {
    var later := AddMonth(c);
    if 0 <= TargetYear(c) <= 99 {
      DayOfYearFits(c);
      DayOfYearFits(later);
      YearsGrow(c.year + 1, later.year);
    } else {
      NextMonthStart(c, later.year);
      assert DayNumber(later) - DayNumber(c) == MonthLength(c.year, c.month) - c.day + later.day;
    }
  }

  /** A month later is 28 to 31 days later if and only if the target year is not misread;
    * it is at least 28 days later in any case. */
  lemma MonthLaterLength(t: Instant)
    ensures MonthLater(t) - t <= 31 * DAY <==> !Misread(t)
    ensures t + 28 * DAY <= MonthLater(t)
  {
    var c := FromInstant(t);
    DaysToNextMonth(c);
    var days := DayNumber(AddMonth(c)) - DayNumber(c);
    assert MonthLater(t) - t == days * DAY;
  }

  // ---------- windows ----------

  datatype Window = Window(start: Instant, end: Instant)

  datatype Range = Recent | Explicit(start: Instant, end: Instant)

  function RangeStart(range: Range, now: Instant): Instant {
    if range.Recent? then now - RECENT_RANGE else range.start
  }

  function RangeEnd(range: Range, now: Instant): Instant { if range.Recent? then now else range.end }

  /** The windows abut and cover the range from `start` to `end`. */
  ghost predicate Partitions(ws: seq<Window>, start: Instant, end: Instant) {
    && (if ws == [] then start == end else ws[0].start == start && ws[|ws| - 1].end == end)
    && (forall i :: 0 <= i < |ws| ==> ws[i].start < ws[i].end)
    && (forall i :: 0 <= i < |ws| - 1 ==> ws[i].end == ws[i + 1].start)
  }

  /** Every window ends `later` after its start, except that the last may end earlier. */
  ghost predicate Stepped(ws: seq<Window>, later: Instant -> Instant) {
    && (forall i :: 0 <= i < |ws| - 1 ==> ws[i].end == later(ws[i].start))
    && (|ws| > 0 ==> ws[|ws| - 1].end <= later(ws[|ws| - 1].start))
  }

  ghost predicate Monthly(ws: seq<Window>) { Stepped(ws, MonthLater) }

  lemma OneMoreWindow(ws: seq<Window>, start: Instant, cursor: Instant, next: Instant, later: Instant -> Instant)
    requires Partitions(ws, start, cursor) && Stepped(ws, later)
    requires |ws| > 0 ==> cursor == later(ws[|ws| - 1].start)
    requires cursor < next <= later(cursor)
    ensures Partitions(ws + [Window(cursor, next)], start, next)
    ensures Stepped(ws + [Window(cursor, next)], later)
  {
    var longer := ws + [Window(cursor, next)];
    forall i | 0 <= i < |longer| - 1
      ensures longer[i].end == longer[i + 1].start && longer[i].end == later(longer[i].start)
    {
      assert longer[i] == ws[i];
      if i + 1 < |ws| { assert longer[i + 1] == ws[i + 1]; }
    }
  }

  method SplitProviderWindows(range: Range, now: Instant) returns (windows: Option<seq<Window>>)
    ensures windows.None? <==> RangeStart(range, now) >= RangeEnd(range, now)
    ensures windows.Some? ==>
              && windows.value != [] && Monthly(windows.value)
              && windows.value[0].start == (if range.Recent? then now - 30 * 24 * 3_600_000 else range.start)
              && windows.value[|windows.value| - 1].end == (if range.Recent? then now else range.end)
              && Partitions(windows.value, RangeStart(range, now), RangeEnd(range, now))
  {
    var start, end := RangeStart(range, now), RangeEnd(range, now);
    if start >= end { return None; }
    forall t ensures t < MonthLater(t) { MonthLaterLength(t); }
    var ws := SplitBy(start, end, MonthLater);
    windows := Some(ws);
  }

  /** The loop, for any way of getting later. */
  method SplitBy(start: Instant, end: Instant, later: Instant -> Instant) returns (ws: seq<Window>)
    requires start < end && forall t :: t < later(t)
    ensures ws != [] && Stepped(ws, later) && Partitions(ws, start, end)
  {
    ws := [];
    var cursor := start;
    while cursor < end
      invariant cursor <= end && (ws == [] ==> cursor == start)
      invariant Partitions(ws, start, cursor) && Stepped(ws, later)
      invariant ws != [] && cursor < end ==> cursor == later(ws[|ws| - 1].start)
      decreases end - cursor
    {
      var next := if later(cursor) < end then later(cursor) else end;
      OneMoreWindow(ws, start, cursor, next, later);
      ws := ws + [Window(cursor, next)];
      cursor := next;
    }
  }

  /** There are at most as many windows as 28-day stretches in the range, rounded up. */
  lemma WindowCount(ws: seq<Window>, start: Instant, end: Instant)
    requires Partitions(ws, start, end) && Monthly(ws) && ws != []
    ensures (|ws| - 1) * (28 * DAY) < end - start
  {
    MonthsAreLong();
    WindowStarts(ws, start, end, |ws| - 1, MonthLater);
    assert ws[|ws| - 1].start < ws[|ws| - 1].end;
  }

  /** From year 100 on every window but the last is 28 to 31 days long, and the last is at
    * most 31 days long. */
  lemma WindowsAreMonths(ws: seq<Window>, start: Instant, end: Instant, i: nat)
    requires Partitions(ws, start, end) && Monthly(ws) && i < |ws|
    requires FromInstant(start).year >= 100
    ensures i + 1 < |ws| ==> 28 * DAY <= ws[i].end - ws[i].start
    ensures ws[i].end - ws[i].start <= 31 * DAY
  {
    MonthsAreLong();
    WindowStarts(ws, start, end, i, MonthLater);
    if i + 1 < |ws| { WindowIsLong(ws, start, end, i, MonthLater); }
    MonthsAreShort(start, ws[i].start);
  }

  lemma MonthsAreLong()
    ensures LeapsFar(MonthLater)
  {
    forall t ensures t + 28 * DAY <= MonthLater(t) { MonthLaterLength(t); }
  }

  lemma MonthsAreShort(start: Instant, t: Instant)
    requires FromInstant(start).year >= 100 && start <= t
    ensures MonthLater(t) - t <= 31 * DAY
  {
    LaterYears(start, t);
    MonthLaterLength(t);
  }

  ghost predicate LeapsFar(later: Instant -> Instant) { forall t :: t + 28 * DAY <= later(t) }

  lemma WindowIsLong(ws: seq<Window>, start: Instant, end: Instant, i: nat, later: Instant -> Instant)
    requires Partitions(ws, start, end) && Stepped(ws, later) && LeapsFar(later) && i + 1 < |ws|
    ensures ws[i + 1].start == ws[i].end >= ws[i].start + 28 * DAY
  {
  }

  lemma WindowStarts(ws: seq<Window>, start: Instant, end: Instant, i: nat, later: Instant -> Instant)
    requires Partitions(ws, start, end) && Stepped(ws, later) && LeapsFar(later) && i < |ws|
    ensures ws[i].start >= start && ws[i].start >= start + i * (28 * DAY)
  {
    forall j | 0 < j < |ws| ensures ws[j].start >= ws[j - 1].start + 28 * DAY {
      WindowIsLong(ws, start, end, j - 1, later);
    }
    GapsAddUp(ws, i);
  }

  lemma {:induction false} GapsAddUp(ws: seq<Window>, i: nat)
    requires i < |ws|
    requires forall j :: 0 < j < |ws| ==> ws[j].start >= ws[j - 1].start + 28 * DAY
    ensures ws[i].start >= ws[0].start && ws[i].start >= ws[0].start + i * (28 * DAY)
  {
    if i > 0 { GapsAddUp(ws, i - 1); }
  }

  lemma LaterYears(a: Instant, b: Instant)
    requires a <= b
    ensures FromInstant(a).year <= FromInstant(b).year
  {
    YearsInOrder(FromInstant(a), FromInstant(b));
  }

  lemma YearsInOrder(c: Civil, d: Civil)
    requires ValidCivil(c) && ValidCivil(d) && ToInstant(c) <= ToInstant(d)
    ensures c.year <= d.year
  {
    DayOfYearFits(c);
    DayOfYearFits(d);
    assert DayNumber(c) <= DayNumber(d);
    if d.year < c.year { YearsGrow(d.year + 1, c.year); }
  }

  lemma MonthsInOrder(c: Civil, d: Civil)
    requires ValidCivil(c) && ValidCivil(d) && c.year == d.year && DayNumber(c) <= DayNumber(d)
    ensures c.month <= d.month
  {
    if d.month < c.month { MonthsGrow(c.year, d.month + 1, c.month); }
  }

  /** An instant has one UTC date. */
  lemma CivilIsUnique(c: Civil, d: Civil)
    requires ValidCivil(c) && ValidCivil(d) && ToInstant(c) == ToInstant(d)
    ensures c == d
  {
    assert DayNumber(c) == DayNumber(d);
    YearsInOrder(c, d);
    YearsInOrder(d, c);
    MonthsInOrder(c, d);
    MonthsInOrder(d, c);
  }

  lemma MonthLaterOfCivil(c: Civil)
    requires ValidCivil(c)
    ensures FromInstant(ToInstant(c)) == c && MonthLater(ToInstant(c)) == ToInstant(AddMonth(c))
  {
    CivilIsUnique(c, FromInstant(ToInstant(c)));
  }

  /** The same time in the next month, on the same day or an earlier one. */
  predicate InNextMonth(c: Civil, d: Civil) {
    && d.time == c.time && d.day <= c.day
    && d.month == (if c.month == 11 then 0 else c.month + 1)
    && d.year == FullYear(if c.month == 11 then c.year + 1 else c.year)
  }

  lemma AddMonthIsNext(c: Civil, d: Civil)
    requires ValidCivil(c) && d == AddMonth(c)
    ensures InNextMonth(c, d) && ValidCivil(d) && (d.day == c.day || d.day == MonthLength(d.year, d.month))
  {
  }

  lemma LastDayEnds(c: Civil) returns (next: Civil)
    requires ValidCivil(c) && c.day == MonthLength(c.year, c.month)
    ensures ValidCivil(next) && ToInstant(next) == ToInstant(c) + DAY && next.month != c.month
  {
    next := Civil(TargetYear(c), (c.month + 1) % 12, 1, c.time);
    NextMonthStart(c, TargetYear(c));
  }

  /** A month later: the same time on the same day of the next month, or on its last day if it
    * has no such day. */
  lemma MonthLaterDate(c: Civil) returns (d: Civil, tomorrow: Civil)
    requires ValidCivil(c)
    ensures ValidCivil(d) && ToInstant(d) == MonthLater(ToInstant(c)) && InNextMonth(c, d)
    ensures ValidCivil(tomorrow) && ToInstant(tomorrow) == ToInstant(d) + DAY
    ensures d.day == c.day || tomorrow.month != d.month
  {
    d := AddMonth(c);
    MonthLaterOfCivil(c);
    AddMonthIsNext(c, d);
    if d.day == c.day {
      tomorrow := FromInstant(ToInstant(d) + DAY);
    } else {
      tomorrow := LastDayEnds(d);
    }
  }

  /** Why the first centuries are different: a month after a date of the years 0 to 98 falls
    * into the twentieth century. */
  lemma MonthLaterYear(c: Civil)
    requires ValidCivil(c)
    ensures FromInstant(MonthLater(ToInstant(c))).year == FullYear(TargetYear(c))
    ensures 0 <= c.year <= 98 ==> FromInstant(MonthLater(ToInstant(c))).year >= 1900
  {
    MonthLaterOfCivil(c);
    MonthLaterOfCivil(AddMonth(c));
  }
}
