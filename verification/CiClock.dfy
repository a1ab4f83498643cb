/**
Which clock a CI stack runs on: an instant is a number of microseconds, a day its ordinal number (ordinal 1 a Monday),
both counted from one origin in UTC; India is five and a half hours ahead.
*/
module CiClock {
  import opened Wrappers

  const SECOND := 1_000_000
  const MINUTE := 60 * SECOND
  const HOUR := 60 * MINUTE
  const DAY := 24 * HOUR
  const IST := 5 * HOUR + 30 * MINUTE

  const OPENS := 9 * HOUR + 30 * MINUTE
  const CLOSES := 14 * HOUR
  const TARGET := 10 * HOUR
  const SEARCHED := 30

  function LocalDay(now: int): int { (now + IST) / DAY }

  function LocalTime(now: int): int { (now + IST) % DAY }

  /** Ten o'clock in India on a day. */
  function TenOClock(day: int): int { day * DAY + TARGET - IST }

  /** `trading_day`: Monday to Friday, and no holiday. */
  predicate TradingDay(day: int, holidays: set<int>) { (day + 6) % 7 < 5 && day !in holidays }

  /** Ordinal 1 is a Monday, 6 a Saturday and 7 a Sunday, and so every seven days. */
  lemma Weekdays(day: int, holidays: set<int>)
    ensures forall d | 1 <= d <= 5 :: TradingDay(d, {})
    ensures !TradingDay(6, holidays) && !TradingDay(7, holidays)
    ensures TradingDay(day, {}) <==> TradingDay(day + 7, {})
    ensures TradingDay(day, holidays) <==> TradingDay(day, {}) && day !in holidays
  {}

  /** Ten o'clock in India is half past four in UTC, here in microseconds since the start of day 0. */
  lemma TenOClockIs(day: int)
    ensures TenOClock(day) == (day * 86_400 + 16_200) * 1_000_000
  {}

  predicate InWindow(now: int, holidays: set<int>) {
    TradingDay(LocalDay(now), holidays) && OPENS <= LocalTime(now) <= CLOSES
  }

  /** The window is a trading day in India from half past nine to two, both inclusive. */
  lemma WindowIs(now: int, holidays: set<int>, day: int)
    requires day * 86_400_000_000 <= now + 19_800_000_000 < (day + 1) * 86_400_000_000
    ensures InWindow(now, holidays) <==>
              && TradingDay(day, holidays)
              && TenOClock(day) - 1_800_000_000 <= now <= TenOClock(day) + 4 * 3_600_000_000
  {
    DayAndTime(now);
    assert LocalDay(now) == day;
  }

  /** The first day the search looks at. */
  function FirstDay(now: int, holidays: set<int>): int {
    if TradingDay(LocalDay(now), holidays) && LocalTime(now) > TARGET then LocalDay(now) else LocalDay(now) - 1
  }

  lemma DayAndTime(now: int)
    ensures now == LocalDay(now) * DAY + LocalTime(now) - IST && 0 <= LocalTime(now) < DAY
  {}

  lemma DaysApart(a: int, b: int)
    requires a <= b
    ensures TenOClock(a) + (b - a) * DAY == TenOClock(b) && TenOClock(a) <= TenOClock(b)
    ensures a < b ==> TenOClock(a) + DAY <= TenOClock(b)
  {}

  /**
  The first day searched has the newest ten o'clock before now that a trading day may have; none newer is before now.
  */
  lemma FirstIsNewest(now: int, holidays: set<int>, day: int)
    ensures TenOClock(FirstDay(now, holidays)) < now
    ensures !InWindow(now, holidays) && TradingDay(day, holidays) && TenOClock(day) < now
            ==> day <= FirstDay(now, holidays)
  {
    DayAndTime(now);
    var today := LocalDay(now);
    hide LocalDay;
    hide LocalTime;
    if day > today {
      DaysApart(today + 1, day);
    }
  }

  /** `pick`. */
  method Pick(now: int, holidays: set<int>, realClock: bool, at: Option<int>) returns (r: Option<int>)
    ensures at.Some? ==> r == at
    ensures at.None? && (realClock || InWindow(now, holidays)) ==> r == Some(now)
    ensures at.None? && !realClock && !InWindow(now, holidays) ==>
              && (r.None?
                  <==> forall d | FirstDay(now, holidays) - 30 < d <= FirstDay(now, holidays) ::
                         !TradingDay(d, holidays))
              && (r.Some? ==> exists day :: IsLatest(now, holidays, day) && r == Some(TenOClock(day)))
              && (r.None? ==> forall d | TradingDay(d, holidays) && TenOClock(d) < now ::
                                TenOClock(d) + 30 * 86_400_000_000 < now)
  {
    if at.Some? {
      return at;
    }
    var day := LocalDay(now);
    if realClock || (TradingDay(day, holidays) && OPENS <= LocalTime(now) <= CLOSES) {
      return Some(now);
    }
    if !(TradingDay(day, holidays) && LocalTime(now) > TARGET) {
      day := day - 1;
    }
    ghost var first := FirstDay(now, holidays);
    assert !InWindow(now, holidays);
    hide TradingDay;
    hide LocalDay;
    hide LocalTime;
    hide TenOClock;
    for i := 0 to SEARCHED
      invariant day == first - i
      invariant forall d | day < d <= first :: !TradingDay(d, holidays)
    {
      if TradingDay(day, holidays) {
        FoundIsLatest(now, holidays, day);
        return Some(TenOClock(day));
      }
      day := day - 1;
    }
    r := None;
    NoneIsOld(now, holidays, first);
  }

  /** With no trading day among those searched, the newest ten o'clock of one is more than thirty days old. */
  lemma NoneIsOld(now: int, holidays: set<int>, first: int)
    requires !InWindow(now, holidays) && first == FirstDay(now, holidays)
    requires forall d | first - SEARCHED < d <= first :: !TradingDay(d, holidays)
    ensures forall d | TradingDay(d, holidays) && TenOClock(d) < now :: TenOClock(d) + 30 * 86_400_000_000 < now
  {
    FirstIsNewest(now, holidays, first);
    hide TradingDay;
    hide InWindow;
    hide FirstDay;
    forall d | TradingDay(d, holidays) && TenOClock(d) < now
      ensures TenOClock(d) + 30 * 86_400_000_000 < now
    {
      FirstIsNewest(now, holidays, d);
      DaysApart(d, first - SEARCHED);
      DaysApart(first - SEARCHED, first);
    }
  }

  /** A trading day whose ten o'clock is before now, and no other trading day's lies between. */
  ghost predicate IsLatest(now: int, holidays: set<int>, day: int) {
    && TradingDay(day, holidays) && TenOClock(day) < now
    && forall d | TradingDay(d, holidays) && TenOClock(day) <= TenOClock(d) < now :: d == day
  }

  lemma FoundIsLatest(now: int, holidays: set<int>, day: int)
    requires !InWindow(now, holidays) && TradingDay(day, holidays) && day <= FirstDay(now, holidays)
    requires forall d | day < d <= FirstDay(now, holidays) :: !TradingDay(d, holidays)
    ensures IsLatest(now, holidays, day)
  {
    FirstIsNewest(now, holidays, day);
    DaysApart(day, FirstDay(now, holidays));
    hide TradingDay;
    hide InWindow;
    hide FirstDay;
    hide TenOClock;
    forall d | TradingDay(d, holidays) && TenOClock(day) <= TenOClock(d) < now
      ensures d == day
    {
      FirstIsNewest(now, holidays, d);
      if d < day {
        DaysApart(d, day);
      }
    }
  }

  // ---- the shift ----

  /** Whole seconds, a half rounded to the even one. */
  function Rounded(us: int): int {
    var s, rest := us / SECOND, us % SECOND;
    if 2 * rest < SECOND || (2 * rest == SECOND && s % 2 == 0) then s else s + 1
  }

  /** `settings`: the shift in seconds, none when it is under five. */
  function Offset(now: int, target: int): int {
    var offset := Rounded(target - now);
    if -5 < offset < 5 then 0 else offset
  }

  lemma RoundedNear(us: int)
    ensures -SECOND <= 2 * (Rounded(us) * SECOND - us) <= SECOND
    ensures 2 * (Rounded(us) * SECOND - us) == SECOND || 2 * (Rounded(us) * SECOND - us) == -SECOND
            ==> Rounded(us) % 2 == 0
  {
    assert us == (us / SECOND) * SECOND + us % SECOND;
  }

  /** A shift of at most four and a half seconds is none; a longer one is the nearest whole number of seconds. */
  lemma OffsetIs(now: int, target: int)
    ensures Offset(now, target) == 0 <==> -4_500_000 <= target - now <= 4_500_000
    ensures Offset(now, target) != 0 ==>
              -500_000 <= Offset(now, target) * 1_000_000 - (target - now) <= 500_000
  {
    RoundedNear(target - now);
    hide Rounded;
  }

  /**
  The clock the stack shows is within half a second of the target, or within five and a half when it is not shifted.
  */
  lemma OffsetShowsTarget(now: int, target: int)
    ensures var shown := now + Offset(now, target) * SECOND;
            if Offset(now, target) == 0 then -11 * SECOND <= 2 * (shown - target) <= 11 * SECOND
            else -SECOND <= 2 * (shown - target) <= SECOND
  {
    RoundedNear(target - now);
    hide Rounded;
  }

  /** A clock that is not real is at least four hours back: outside the window no ten o'clock is nearer. */
  lemma ShiftIsBackwards(now: int, holidays: set<int>, day: int)
    requires !InWindow(now, holidays) && IsLatest(now, holidays, day)
    ensures TenOClock(day) + 4 * HOUR < now && Offset(now, TenOClock(day)) <= -4 * 3600
  {
    DayAndTime(now);
    var today := LocalDay(now);
    RoundedNear(TenOClock(day) - now);
    hide LocalDay;
    hide LocalTime;
    hide Rounded;
    if day < today {
      DaysApart(day, today - 1);
    } else if day > today {
      DaysApart(today + 1, day);
      assert false;
    }
  }
}
