/**
 Cron schedules in UTC: parsing one field, matching, and the minute-by-minute search for the
 next run.  Times are whole milliseconds since 1 January 1970; `minute` counts whole minutes.
 */
module Cron {
  import opened Arith
  import opened Calendar

  datatype Option<T> = None | Some(value: T)

  const MS_PER_MINUTE := 60_000
  const MINUTES_PER_DAY := 1440
  /** 4 * 366 * 24 * 60. */
  const SEARCH_MINUTES := 2_108_160

  // ----- Fields -------------------------------------------------------------------------

  /** A number as written; texts that are no integer are `NotInteger`. */
  datatype Num = Int(value: int) | NotInteger

  datatype Span = All | Single(at: Num) | Between(lo: Num, hi: Num)

  /** One comma-separated part of a field: a span and an optional step. */
  datatype Token = Token(span: Span, step: Option<Num>)

  function StepOf(t: Token): Num {
    match t.step
    case None => Int(1)
    case Some(n) => n
  }

  function LoOf(t: Token, min: int): Num {
    match t.span
    case All => Int(min)
    case Single(n) => n
    case Between(lo, _) => lo
  }

  function HiOf(t: Token, max: int): Num {
    match t.span
    case All => Int(max)
    case Single(n) => n
    case Between(_, hi) => hi
  }

  predicate ValidToken(t: Token, min: int, max: int) {
    && StepOf(t).Int? && StepOf(t).value > 0
    && LoOf(t, min).Int? && HiOf(t, max).Int?
    && min <= LoOf(t, min).value <= HiOf(t, max).value <= max
  }

  /** The value is one the token names: its start plus a multiple of its step, up to its end. */
  predicate Names(t: Token, min: int, max: int, value: int)
    requires ValidToken(t, min, max)
  {
    && LoOf(t, min).value <= value <= HiOf(t, max).value
    && (value - LoOf(t, min).value) % StepOf(t).value == 0
  }

  /** What is accepted, by the way it is written: `*`, one number, a range, each with an optional step. */
  lemma {:induction false} AcceptedTokens(n: int, lo: int, hi: int, step: int, min: int, max: int)
    requires min <= max
    ensures ValidToken(Token(All, None), min, max)
    ensures ValidToken(Token(Single(Int(n)), None), min, max) <==> !(n < min) && !(n > max)
    ensures ValidToken(Token(Between(Int(lo), Int(hi)), None), min, max) <==> !(lo < min || hi > max || lo > hi)
    ensures ValidToken(Token(All, Some(Int(step))), min, max) <==> step > 0
    ensures ValidToken(Token(Between(Int(lo), Int(hi)), Some(Int(step))), min, max) <==>
              step > 0 && !(lo < min || hi > max || lo > hi)
    ensures !ValidToken(Token(Single(NotInteger), None), min, max)
    ensures !ValidToken(Token(Between(NotInteger, Int(hi)), None), min, max)
    ensures !ValidToken(Token(Between(Int(lo), NotInteger), None), min, max)
    ensures !ValidToken(Token(All, Some(NotInteger)), min, max)
  {
  }

  lemma NextMultiple(lo: int, step: int, value: int, other: int)
    requires step > 0 && lo <= value && (value - lo) % step == 0
    requires value < other && (other - lo) % step == 0
    ensures other >= value + step
  {
    var p, q := (value - lo) / step, (other - lo) / step;
    assert value == lo + step * p && other == lo + step * q;
    if q < p {
      Scale(step, q, p);
    }
    Scale(step, p, q);
  }

  ghost predicate ValidField(field: seq<Token>, min: int, max: int) {
    forall i :: 0 <= i < |field| ==> ValidToken(field[i], min, max)
  }

  /** One of the tokens names the value. */
  ghost predicate Named(field: seq<Token>, min: int, max: int, value: int)
    requires ValidField(field, min, max)
  {
    exists i :: 0 <= i < |field| && Names(field[i], min, max, value)
  }

  /** Parses one field; None where the source rejects it. */
  method ParseField(field: seq<Token>, min: int, max: int) returns (values: Option<set<int>>)
    ensures values.Some? <==> ValidField(field, min, max)
    ensures values.Some? ==> forall v :: v in values.value <==> Named(field, min, max, v)
  {
    var found: set<int> := {};
    for k := 0 to |field|
      invariant forall i :: 0 <= i < k ==> ValidToken(field[i], min, max)
      invariant forall v :: v in found <==> exists i :: 0 <= i < k && Names(field[i], min, max, v)
    {
      var t := field[k];
      if !ValidToken(t, min, max) {
        return None;
      }
      var lo, hi, step := LoOf(t, min).value, HiOf(t, max).value, StepOf(t).value;
      var earlier := found;
      var value := lo;
      while value <= hi
        invariant lo <= value && (value - lo) % step == 0
        invariant forall v :: v in found <==> v in earlier || (v < value && Names(t, min, max, v))
        decreases hi - value
      {
        forall v | Names(t, min, max, v) && value < v < value + step
          ensures false
        {
          NextMultiple(lo, step, value, v);
        }
        found := found + {value};
        OnePeriodMore(value - lo, step);
        value := value + step;
      }
      assert forall v :: v in found <==> v in earlier || Names(t, min, max, v);
    }
    return Some(found);
  }

  // ----- Schedules ----------------------------------------------------------------------

  datatype Schedule = Schedule(
    minutes: set<int>, hours: set<int>, daysOfMonth: set<int>, months: set<int>,
    daysOfWeek: set<int>, domRestricted: bool, dowRestricted: bool)

  const STAR := [Token(All, None)]

  /** What parsing leaves: no empty field, values in range, and a bare `*` is the full range. */
  ghost predicate Parsed(s: Schedule) {
    && (exists v :: v in s.minutes) && (forall v :: v in s.minutes ==> 0 <= v <= 59)
    && (exists v :: v in s.hours) && (forall v :: v in s.hours ==> 0 <= v <= 23)
    && (exists v :: v in s.daysOfMonth) && (forall v :: v in s.daysOfMonth ==> 1 <= v <= 31)
    && (exists v :: v in s.months) && (forall v :: v in s.months ==> 1 <= v <= 12)
    && (exists v :: v in s.daysOfWeek) && (forall v :: v in s.daysOfWeek ==> 0 <= v <= 6)
    && (!s.domRestricted ==> forall v :: 1 <= v <= 31 ==> v in s.daysOfMonth)
    && (!s.dowRestricted ==> forall v :: 0 <= v <= 6 ==> v in s.daysOfWeek)
  }

  lemma FieldIsInRange(field: seq<Token>, min: int, max: int, values: set<int>)
    requires field != [] && min <= max && ValidField(field, min, max)
    requires forall v :: v in values <==> Named(field, min, max, v)
    ensures exists v :: v in values
    ensures forall v :: v in values ==> min <= v <= max
    ensures field == STAR ==> forall v :: min <= v <= max ==> v in values
  {
    var lo := LoOf(field[0], min).value;
    assert Names(field[0], min, max, lo);
    assert lo in values;
    if field == STAR {
      forall v | min <= v <= max
        ensures v in values
      {
        assert Names(field[0], min, max, v);
      }
    }
  }

  /** The five fields of an expression; none is empty, since splitting a text at commas is not. */
  datatype Fields = Fields(minute: seq<Token>, hour: seq<Token>, dom: seq<Token>, month: seq<Token>, dow: seq<Token>)

  predicate Written(f: Fields) {
    f.minute != [] && f.hour != [] && f.dom != [] && f.month != [] && f.dow != []
  }

  ghost predicate ValidFields(f: Fields) {
    && ValidField(f.minute, 0, 59) && ValidField(f.hour, 0, 23) && ValidField(f.dom, 1, 31)
    && ValidField(f.month, 1, 12) && ValidField(f.dow, 0, 6)
  }

  /** The schedule holds exactly what the fields name. */
  ghost predicate ReadFrom(s: Schedule, f: Fields) {
    && ValidFields(f)
    && (forall v :: v in s.minutes <==> Named(f.minute, 0, 59, v))
    && (forall v :: v in s.hours <==> Named(f.hour, 0, 23, v))
    && (forall v :: v in s.daysOfMonth <==> Named(f.dom, 1, 31, v))
    && (forall v :: v in s.months <==> Named(f.month, 1, 12, v))
    && (forall v :: v in s.daysOfWeek <==> Named(f.dow, 0, 6, v))
    && s.domRestricted == (f.dom != STAR) && s.dowRestricted == (f.dow != STAR)
  }

  /** Parses the five fields; None where the source rejects one of them. */
  method ParseExpression(f: Fields) returns (schedule: Option<Schedule>)
    requires Written(f)
    ensures schedule.Some? <==> ValidFields(f)
    ensures schedule.Some? ==> ReadFrom(schedule.value, f) && Parsed(schedule.value)
  {
    var daysOfMonth := ParseField(f.dom, 1, 31);
    var daysOfWeek := ParseField(f.dow, 0, 6);
    var minutes := ParseField(f.minute, 0, 59);
    var hours := ParseField(f.hour, 0, 23);
    var months := ParseField(f.month, 1, 12);
    if daysOfMonth == None || daysOfWeek == None || minutes == None || hours == None || months == None {
      return None;
    }
    FieldIsInRange(f.dom, 1, 31, daysOfMonth.value);
    FieldIsInRange(f.dow, 0, 6, daysOfWeek.value);
    FieldIsInRange(f.minute, 0, 59, minutes.value);
    FieldIsInRange(f.hour, 0, 23, hours.value);
    FieldIsInRange(f.month, 1, 12, months.value);
    return Some(Schedule(minutes.value, hours.value, daysOfMonth.value, months.value, daysOfWeek.value,
                         f.dom != STAR, f.dow != STAR));
  }

  predicate TimeMatches(s: Schedule, minute: int) {
    minute % 60 in s.minutes && (minute / 60) % 24 in s.hours
  }

  predicate DayMatches(s: Schedule, day: int) {
    && Month(day) in s.months
    && var dom, dow := DayOfMonth(day) in s.daysOfMonth, Weekday(day) in s.daysOfWeek;
       if s.domRestricted && s.dowRestricted then dom || dow else dom && dow
  }

  predicate Matches(s: Schedule, minute: int) {
    TimeMatches(s, minute) && DayMatches(s, minute / MINUTES_PER_DAY)
  }

  // ----- The search ---------------------------------------------------------------------

  /** The first whole minute strictly after `after`. */
  function FirstMinute(after: int): (m: int)
    ensures MS_PER_MINUTE * m > after >= MS_PER_MINUTE * (m - 1)
  {
    after / MS_PER_MINUTE + 1
  }

  ghost predicate MatchInWindow(s: Schedule, after: int) {
    exists m :: FirstMinute(after) <= m < FirstMinute(after) + SEARCH_MINUTES && Matches(s, m)
  }

  /** The least matching minute strictly after `after`; None where the source throws. */
  method NextRun(s: Schedule, after: int) returns (run: Option<int>)
    ensures run.Some? ==> MS_PER_MINUTE * run.value > after && Matches(s, run.value)
    ensures run.Some? ==> forall m :: MS_PER_MINUTE * m > after && Matches(s, m) ==> run.value <= m
    ensures run.Some? <==> MatchInWindow(s, after)
  {
    var cursor := FirstMinute(after);
    for step := 0 to SEARCH_MINUTES
      invariant cursor == FirstMinute(after) + step
      invariant forall m :: FirstMinute(after) <= m < cursor ==> !Matches(s, m)
    {
      if Matches(s, cursor) {
        return Some(cursor);
      }
      cursor := cursor + 1;
    }
    return None;
  }

  /** The minute is one that the fields, as written, ask for. */
  ghost predicate Asked(f: Fields, minute: int)
    requires ValidFields(f)
  {
    var day := minute / MINUTES_PER_DAY;
    && Named(f.minute, 0, 59, minute % 60) && Named(f.hour, 0, 23, (minute / 60) % 24)
    && Named(f.month, 1, 12, Month(day))
    && var dom, dow := Named(f.dom, 1, 31, DayOfMonth(day)), Named(f.dow, 0, 6, Weekday(day));
       if f.dom != STAR && f.dow != STAR then dom || dow else dom && dow
  }

  ghost predicate AskedInWindow(f: Fields, after: int)
    requires ValidFields(f)
  {
    exists m :: FirstMinute(after) <= m < FirstMinute(after) + SEARCH_MINUTES && Asked(f, m)
  }

  datatype Next = At(minute: int) | InvalidField | NoRunFound

  /** From the written fields to the next run: the first minute after `after` that they ask for. */
  method NextCronRun(f: Fields, after: int) returns (next: Next)
    requires Written(f)
    ensures next.InvalidField? <==> !ValidFields(f)
    ensures next.NoRunFound? <==> ValidFields(f) && !AskedInWindow(f, after)
    ensures next.At? ==> MS_PER_MINUTE * next.minute > after && ValidFields(f) && Asked(f, next.minute)
    ensures next.At? ==> forall m :: MS_PER_MINUTE * m > after && Asked(f, m) ==> next.minute <= m
  {
    var schedule := ParseExpression(f);
    if schedule == None {
      return InvalidField;
    }
    var s := schedule.value;
    assert forall m :: Asked(f, m) <==> Matches(s, m);
    var run := NextRun(s, after);
    return if run == None then NoRunFound else At(run.value);
  }

  // ----- When the search fails ----------------------------------------------------------

  /** A day of the month that the month has, in a leap year at least. */
  ghost predicate SomeDayExists(s: Schedule) {
    exists m, d :: m in s.months && d in s.daysOfMonth && d <= DaysInMonth(m, true)
  }

  /** The schedule can name a calendar day at all. */
  ghost predicate Feasible(s: Schedule) {
    s.dowRestricted || SomeDayExists(s)
  }

  /** The one kind of day the schedule can name is 29 February. */
  ghost predicate LeapDayOnly(s: Schedule) {
    && !s.dowRestricted
    && forall m, d :: m in s.months && d in s.daysOfMonth && d <= DaysInMonth(m, true) ==> m == 2 && d == 29
  }

  lemma MonthLengths(m: int, leap: bool)
    requires 1 <= m <= 12
    ensures DaysInMonth(m, leap) == DaysInMonth(m, false) + (if leap && m == 2 then 1 else 0)
    ensures 28 <= DaysInMonth(m, false)
  {
  }

  /** `Feasible` is exactly: some calendar day matches. */
  lemma FeasibleIff(s: Schedule)
    requires Parsed(s)
    ensures Feasible(s) <==> exists day :: DayMatches(s, day)
  {
    if Feasible(s) {
      if !LeapDayOnly(s) {
        var day := OrdinaryDayInWindow(s, 0);
      } else {
        var day := LeapDayWithinFourYears(0);
        LeapDayMatches(s, day);
      }
    }
    if day :| DayMatches(s, day) {
      MonthLengths(Month(day), Leap(YearOf(day)));
      MonthLengths(Month(day), true);
      assert s.dowRestricted || (Month(day) in s.months && DayOfMonth(day) in s.daysOfMonth);
    }
  }

  lemma LeapDayMatches(s: Schedule, day: int)
    requires Parsed(s) && Feasible(s) && LeapDayOnly(s) && LeapDay(day)
    ensures DayMatches(s, day)
  {
    assert 2 in s.months && 29 in s.daysOfMonth;
  }

  /** A feasible schedule that is not bound to leap days matches within 372 days of any day. */
  lemma OrdinaryDayInWindow(s: Schedule, n0: int) returns (day: int)
    requires Parsed(s) && Feasible(s) && !LeapDayOnly(s)
    ensures n0 < day <= n0 + 372 && DayMatches(s, day)
  {
    if s.dowRestricted {
      var m :| m in s.months;
      var w :| w in s.daysOfWeek;
      day := WeekdayInMonthWithinAYear(n0, m, w);
    } else {
      var m, d :| m in s.months && d in s.daysOfMonth && d <= DaysInMonth(m, true) && !(m == 2 && d == 29);
      MonthLengths(m, true);
      day := DateWithinAYear(n0, m, d);
    }
  }

  /** A matching day strictly inside the window gives a matching minute in it. */
  lemma MinuteOfDay(s: Schedule, after: int, day: int)
    requires Parsed(s) && DayMatches(s, day)
    requires FirstMinute(after) / MINUTES_PER_DAY < day < FirstMinute(after) / MINUTES_PER_DAY + 1464
    ensures MatchInWindow(s, after)
  {
    var h :| h in s.hours;
    var k :| k in s.minutes;
    var m := MINUTES_PER_DAY * day + 60 * h + k;
    MinuteParts(day, h, k);
    DayBounds(FirstMinute(after), m);
    assert Matches(s, m);
  }

  lemma MinuteParts(day: int, h: int, k: int)
    requires 0 <= h <= 23 && 0 <= k <= 59
    ensures var m := MINUTES_PER_DAY * day + 60 * h + k;
            m / MINUTES_PER_DAY == day && m % 60 == k && (m / 60) % 24 == h
  {
    assert (MINUTES_PER_DAY * day + 60 * h + k) / 60 == 24 * day + h;
  }

  lemma DayBounds(first: int, m: int)
    requires first / MINUTES_PER_DAY < m / MINUTES_PER_DAY < first / MINUTES_PER_DAY + 1464
    ensures first <= m < first + SEARCH_MINUTES
  {
  }

  lemma InfeasibleNeverRuns(s: Schedule, after: int)
    requires Parsed(s) && !Feasible(s)
    ensures !MatchInWindow(s, after)
  {
    FeasibleIff(s);
  }

  /** The least and the greatest of some numbers. */
  ghost function Least(values: set<int>): (least: int)
    requires exists v :: v in values
    ensures least in values && forall v :: v in values ==> least <= v
  {
    var v :| v in values;
    var others := values - {v};
    assert forall w :: w in values ==> w == v || w in others;
    if !exists w :: w in others then v
    else
      var least := Least(others);
      if v < least then v else least
  }

  ghost function Greatest(values: set<int>): (greatest: int)
    requires exists v :: v in values
    ensures greatest in values && forall v :: v in values ==> v <= greatest
  {
    var v :| v in values;
    var others := values - {v};
    assert forall w :: w in values ==> w == v || w in others;
    if !exists w :: w in others then v
    else
      var greatest := Greatest(others);
      if v > greatest then v else greatest
  }

  /** The first and the last minute of a day that are times of the schedule. */
  ghost function FirstOn(s: Schedule, day: int): (m: int)
    requires Parsed(s)
    ensures TimeMatches(s, m) && m / MINUTES_PER_DAY == day
  {
    MinuteParts(day, Least(s.hours), Least(s.minutes));
    MINUTES_PER_DAY * day + 60 * Least(s.hours) + Least(s.minutes)
  }

  ghost function LastOn(s: Schedule, day: int): (m: int)
    requires Parsed(s)
    ensures TimeMatches(s, m) && m / MINUTES_PER_DAY == day
  {
    MinuteParts(day, Greatest(s.hours), Greatest(s.minutes));
    MINUTES_PER_DAY * day + 60 * Greatest(s.hours) + Greatest(s.minutes)
  }

  lemma BetweenFirstAndLast(s: Schedule, m: int)
    requires Parsed(s) && TimeMatches(s, m)
    ensures FirstOn(s, m / MINUTES_PER_DAY) <= m <= LastOn(s, m / MINUTES_PER_DAY)
  {
    var day, h, k := m / MINUTES_PER_DAY, (m / 60) % 24, m % 60;
    assert m == MINUTES_PER_DAY * day + 60 * h + k;
    assert Least(s.hours) <= h <= Greatest(s.hours) && Least(s.minutes) <= k <= Greatest(s.minutes);
  }

  /** 29 February of a leap year. */
  function Feb29(y: int): int {
    DayNumber(y, 2, 29)
  }

  /** The window lies between the last run of year c - 4 and the first of year c + 4, and c is not leap. */
  ghost predicate Straddles(s: Schedule, after: int, c: int)
    requires Parsed(s)
  {
    && SkippedLeap(c)
    && LastOn(s, Feb29(c - 4)) < FirstMinute(after)
    && FirstMinute(after) + SEARCH_MINUTES <= FirstOn(s, Feb29(c + 4))
  }

  /**
   When the search throws, exactly: the schedule names no calendar day, or it names only
   29 February and the window falls into the eight years around a skipped leap year, after the
   last run of the leap year before and before the first run of the leap year behind.
   */
  lemma NoRunIff(s: Schedule, after: int)
    requires Parsed(s)
    ensures !MatchInWindow(s, after) <==> !Feasible(s) || (LeapDayOnly(s) && exists c :: Straddles(s, after, c))
  {
    var n0 := FirstMinute(after) / MINUTES_PER_DAY;
    if !Feasible(s) {
      InfeasibleNeverRuns(s, after);
    } else if !LeapDayOnly(s) {
      var day := OrdinaryDayInWindow(s, n0);
      MinuteOfDay(s, after, day);
    } else {
      if !MatchInWindow(s, after) {
        var c := StraddledYear(s, after);
      }
      if c :| Straddles(s, after, c) {
        NoRunAround(s, after, c);
      }
    }
  }

  /** The leap years next to a skipped one, and how far its start is from their leap days. */
  lemma AroundSkipped(c: int)
    requires SkippedLeap(c)
    ensures Leap(c - 4) && Leap(c + 4) && !Leap(c)
    ensures LeapDay(Feb29(c - 4)) && LeapDay(Feb29(c + 4))
    ensures Feb29(c - 4) < DayFromYear(c) && DayFromYear(c + 1) <= Feb29(c + 4)
  {
    NextToCentury(c);
    DateOfDayNumber(c - 4, 2, 29);
    DateOfDayNumber(c + 4, 2, 29);
    YearLength(c - 4);
    YearsGrow(c - 3, c);
    YearsGrow(c + 1, c + 4);
  }

  lemma NextToCentury(c: int)
    requires SkippedLeap(c)
    ensures Leap(c - 4) && Leap(c + 4) && !Leap(c)
  {
    var q := c / 100;
    DivModUnique(c - 4, 4, 25 * q - 1, 0);
    DivModUnique(c + 4, 4, 25 * q + 1, 0);
    DivModUnique(c - 4, 100, q - 1, 96);
    DivModUnique(c + 4, 100, q, 4);
  }

  lemma StraddledYear(s: Schedule, after: int) returns (c: int)
    requires Parsed(s) && Feasible(s) && LeapDayOnly(s) && !MatchInWindow(s, after)
    ensures Straddles(s, after, c)
  {
    c := SkippedInWindow(s, after);
    AroundSkipped(c);
    LeapDaysAroundWindow(after, c);
    RunOnLeapDay(s, Feb29(c - 4), LastOn(s, Feb29(c - 4)));
    RunOnLeapDay(s, Feb29(c + 4), FirstOn(s, Feb29(c + 4)));
  }

  lemma SkippedInWindow(s: Schedule, after: int) returns (c: int)
    requires Parsed(s) && Feasible(s) && !MatchInWindow(s, after)
    ensures FirstYear(after) <= c <= LastYear(after) && SkippedLeap(c)
  {
    FeasibleIff(s);
    if forall y :: FirstYear(after) <= y <= LastYear(after) ==> !SkippedLeap(y) {
      NoRunAwayFromCenturies(s, after);
      assert false;
    }
    c :| FirstYear(after) <= c <= LastYear(after) && SkippedLeap(c);
  }

  lemma LeapDaysAroundWindow(after: int, c: int)
    requires FirstYear(after) <= c <= LastYear(after) && SkippedLeap(c)
    ensures Feb29(c - 4) < (FirstMinute(after) + SEARCH_MINUTES - 1) / MINUTES_PER_DAY
    ensures FirstMinute(after) / MINUTES_PER_DAY < Feb29(c + 4)
  {
    AroundSkipped(c);
    YearsGrow(c, LastYear(after));
    YearsGrow(FirstYear(after) + 1, c + 1);
  }

  lemma RunOnLeapDay(s: Schedule, day: int, m: int)
    requires Parsed(s) && Feasible(s) && LeapDayOnly(s) && LeapDay(day)
    requires TimeMatches(s, m) && m / MINUTES_PER_DAY == day
    ensures Matches(s, m)
  {
    LeapDayMatches(s, day);
  }

  lemma NoRunAround(s: Schedule, after: int, c: int)
    requires Parsed(s) && Feasible(s) && LeapDayOnly(s) && Straddles(s, after, c)
    ensures !MatchInWindow(s, after)
  {
    AroundSkipped(c);
    if m :| FirstMinute(after) <= m < FirstMinute(after) + SEARCH_MINUTES && Matches(s, m) {
      var day := m / MINUTES_PER_DAY;
      OnlyLeapDaysMatch(s, day);
      LeapDayYear(day);
      BetweenFirstAndLast(s, m);
      assert Feb29(c - 4) <= day <= Feb29(c + 4);
      if day == Feb29(c - 4) || day == Feb29(c + 4) {
        assert false;
      }
      NoLeapDayBetween(c, day);
    }
  }

  /** From one leap day next to a skipped leap year to the other there is no third. */
  lemma NoLeapDayBetween(c: int, day: int)
    requires SkippedLeap(c) && Feb29(c - 4) < day < Feb29(c + 4)
    ensures !LeapDay(day)
  {
    if LeapDay(day) {
      var y := YearOf(day);
      NextToCentury(c);
      LeapDayYear(day);
      if y <= c - 4 {
        YearsGrow(y, c - 4);
      } else if y >= c + 4 {
        YearsGrow(c + 4, y);
      } else {
        BetweenMultiples(c, y);
      }
    }
  }

  lemma BetweenMultiples(c: int, y: int)
    requires SkippedLeap(c) && c - 4 < y < c + 4 && y % 4 == 0
    ensures y == c
  {
    assert c == 100 * (c / 100) && y == 4 * (y / 4);
  }

  lemma OnlyLeapDaysMatch(s: Schedule, day: int)
    requires Parsed(s) && Feasible(s) && LeapDayOnly(s)
    ensures DayMatches(s, day) <==> LeapDay(day)
  {
    MonthLengths(Month(day), Leap(YearOf(day)));
    MonthLengths(Month(day), true);
    if LeapDay(day) {
      LeapDayMatches(s, day);
    }
  }

  /** The years the search window touches. */
  function FirstYear(after: int): int {
    YearOf(FirstMinute(after) / MINUTES_PER_DAY)
  }

  function LastYear(after: int): int {
    YearOf((FirstMinute(after) + SEARCH_MINUTES - 1) / MINUTES_PER_DAY)
  }

  /**
   If the window touches no year that the century rule makes common, the search throws exactly
   for the schedules that no calendar day ever matches.
   */
  lemma NoRunAwayFromCenturies(s: Schedule, after: int)
    requires Parsed(s)
    requires forall y :: FirstYear(after) <= y <= LastYear(after) ==> !SkippedLeap(y)
    ensures !MatchInWindow(s, after) <==> forall day :: !DayMatches(s, day)
  {
    var n0 := FirstMinute(after) / MINUTES_PER_DAY;
    FeasibleIff(s);
    if !Feasible(s) {
      InfeasibleNeverRuns(s, after);
    } else if !LeapDayOnly(s) {
      var day := OrdinaryDayInWindow(s, n0);
      MinuteOfDay(s, after, day);
    } else {
      WindowReachesFifthYear(after);
      var day := LeapDayWithinFourYears(n0);
      LeapDayMatches(s, day);
      MinuteOfDay(s, after, day);
    }
  }

  lemma WindowReachesFifthYear(after: int)
    ensures FirstYear(after) + 4 <= LastYear(after)
  {
    var n0 := FirstMinute(after) / MINUTES_PER_DAY;
    var n1 := (FirstMinute(after) + SEARCH_MINUTES - 1) / MINUTES_PER_DAY;
    assert n1 >= n0 + 1463;
    var y := YearOf(n0);
    AtMostFourYears(y);
    if YearOf(n1) < y + 4 {
      YearsGrow(YearOf(n1) + 1, y + 4);
    }
  }

  /** `0 0 29 2 *`. */
  const LEAP_DAY_SCHEDULE := Schedule({0}, {0}, {29}, {2}, set v | 0 <= v <= 6, true, false)

  /**
   Without that condition the claim fails around every skipped leap year, 2100 first: from midnight (UTC) of
   1 March four years before it the search for midnight on 29 February throws, although 29 February four
   years after it matches.
   */
  lemma {:induction false} SkippedCenturyDefeatsTheSearch(c: int, march: int, after: int)
    requires SkippedLeap(c) && YearOf(march) == c - 4 && Month(march) == 3 && DayOfMonth(march) == 1
    requires after == march * 86_400_000
    ensures Parsed(LEAP_DAY_SCHEDULE) && !MatchInWindow(LEAP_DAY_SCHEDULE, after)
    ensures exists day :: YearOf(day) == c + 4 && Month(day) == 2 && DayOfMonth(day) == 29 && DayMatches(LEAP_DAY_SCHEDULE, day)
  {
    LeapDayScheduleIsParsed();
    NextToCentury(c);
    LeapDayMatchesIn(LEAP_DAY_SCHEDULE, c + 4);
    WindowBetween(LEAP_DAY_SCHEDULE, c, march, after);
    NoRunIff(LEAP_DAY_SCHEDULE, after);
  }

  lemma {:induction false} LeapDayMatchesIn(s: Schedule, y: int)
    requires Parsed(s) && Feasible(s) && LeapDayOnly(s) && Leap(y)
    ensures exists day :: YearOf(day) == y && Month(day) == 2 && DayOfMonth(day) == 29 && DayMatches(s, day)
  {
    DateOfDayNumber(y, 2, 29);
    LeapDayMatches(s, Feb29(y));
  }

  lemma {:induction false} WindowBetween(s: Schedule, c: int, march: int, after: int)
    requires Parsed(s) && SkippedLeap(c) && YearOf(march) == c - 4 && Month(march) == 3 && DayOfMonth(march) == 1
    requires after == march * 86_400_000
    ensures Straddles(s, after, c)
  {
    NextToCentury(c);
    DayNumberOfDate(march);
    YearLength(c - 4);
    YearsGrow(c - 3, c + 4);
    assert Feb29(c + 4) >= march + 2000 && Feb29(c - 4) == march - 1;
  }

  lemma LeapDayScheduleIsParsed()
    ensures Parsed(LEAP_DAY_SCHEDULE) && Feasible(LEAP_DAY_SCHEDULE) && LeapDayOnly(LEAP_DAY_SCHEDULE)
  {
    var s := LEAP_DAY_SCHEDULE;
    assert 0 in s.minutes && 0 in s.hours && 29 in s.daysOfMonth && 2 in s.months && 0 in s.daysOfWeek;
  }

  lemma LeapDayYear(day: int)
    requires LeapDay(day)
    ensures Leap(YearOf(day)) && day == DayFromYear(YearOf(day)) + 59
  {
    DayNumberOfDate(day);
  }
}
