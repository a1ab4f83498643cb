/**
The bars of the fake broker.  Times are minutes since the epoch; `until` is an instant in microseconds, so that the
truncation to the minute is visible.  The price of a symbol at a minute is a given function.
*/
module FakeBars {
  import opened Wrappers

  type Price = (string, int) -> real

  datatype Bar = Bar(start: int, open: real, high: real, low: real, close: real, volume: real)

  const MICROS := 60_000_000   // one minute

  /** `int(t.timestamp() // 60)`. */
  function MinuteOf(until: int): (m: int)
    ensures m * 60_000_000 <= until < (m + 1) * 60_000_000
  {
    until / MICROS
  }

  /** An instant with its seconds dropped. */
  function Truncated(until: int): int { MinuteOf(until) * MICROS }

  // ---- the session clock: days since the epoch in IST (UTC + 330 minutes), 09:15 to 15:30, Monday to Friday ----

  function Open(day: int): int { day * 1440 + 555 - 330 }

  function Close(day: int): int { day * 1440 + 930 - 330 }

  /** 1 January 1970 was a Thursday. */
  predicate IsSessionDay(day: int) { (day + 3) % 7 < 5 }

  function Least(a: int, b: int): (m: int)
    ensures m <= a && m <= b && (m == a || m == b)
  {
    if a <= b then a else b
  }

  function Most(a: int, b: int): (m: int)
    ensures m >= a && m >= b && (m == a || m == b)
  {
    if a >= b then a else b
  }

  // ---- one bar ----

  /** The prices at first, first + step, ... up to first + span. */
  function Samples(price: Price, symbol: string, first: int, k: int, span: int, step: int): seq<real>
    requires step > 0
    decreases span - k
  {
    if k > span then [] else [price(symbol, first + k)] + Samples(price, symbol, first, k + step, span, step)
  }

  function Highest(s: seq<real>): real
    requires s != []
  {
    if |s| == 1 then s[0] else var h := Highest(s[1..]); if s[0] >= h then s[0] else h
  }

  function Lowest(s: seq<real>): real
    requires s != []
  {
    if |s| == 1 then s[0] else var l := Lowest(s[1..]); if s[0] <= l then s[0] else l
  }

  /** The bar that starts at `bucket` and ends at `end`, as far as `until` lets it form. */
  function IntradayBar(price: Price, symbol: string, bucket: int, end: int, until: int): Bar {
    var lastMinute := MinuteOf(Least(end * MICROS, until + MICROS));
    var span := Most(1, lastMinute - bucket);
    var samples := Samples(price, symbol, bucket, 0, span, Most(1, span / 8));
    var o, c := price(symbol, bucket), price(symbol, bucket + span);
    Bar(bucket, o, Highest(samples + [c]), Lowest(samples + [c]), c, 1000.0 + ((bucket % 97) * 10) as real)
  }

  function DailyBar(price: Price, symbol: string, day: int, until: int): Bar {
    var last := Least(Close(day) * MICROS, until);
    var span := Most(1, (last - Open(day) * MICROS) / MICROS);
    var samples := Samples(price, symbol, Open(day), 0, span, 15);
    var c := price(symbol, MinuteOf(last));
    Bar(day * 1440 - 330, price(symbol, Open(day)), Highest(samples + [c]), Lowest(samples + [c]), c,
        100000.0 + (span * 10) as real)
  }

  // ---- all bars, computed directly ----

  function Intraday(price: Price, symbol: string, minutes: int, bucket: int, close: int, until: int): seq<Bar>
    requires minutes >= 1
    decreases close - bucket
  {
    if bucket < close && bucket * MICROS <= until then
      var end := Least(bucket + minutes, close);
      [IntradayBar(price, symbol, bucket, end, until)] + Intraday(price, symbol, minutes, end, close, until)
    else []
  }

  function DayBars(price: Price, symbol: string, minutes: Option<int>, day: int, until: int): seq<Bar>
    requires minutes.Some? ==> minutes.value >= 1
  {
    if !IsSessionDay(day) then []
    else if minutes.None? then
      if Open(day) * MICROS <= until then [DailyBar(price, symbol, day, until)] else []
    else Intraday(price, symbol, minutes.value, Open(day), Close(day), until)
  }

  function Bars(price: Price, symbol: string, minutes: Option<int>, day: int, endDay: int, until: int): seq<Bar>
    requires minutes.Some? ==> minutes.value >= 1
    decreases endDay - day
  {
    if day > endDay then []
    else DayBars(price, symbol, minutes, day, until) + Bars(price, symbol, minutes, day + 1, endDay, until)
  }

  // ---- seconds do not matter ----

  lemma TruncatedMinutes(until: int, m: int)
    ensures MinuteOf(Truncated(until)) == MinuteOf(until)
    ensures m * MICROS <= until <==> m <= MinuteOf(until)
    ensures m * MICROS <= Truncated(until) <==> m <= MinuteOf(until)
    ensures MinuteOf(Least(m * MICROS, until)) == Least(m, MinuteOf(until))
    ensures MinuteOf(Least(m * MICROS, until + MICROS)) == Least(m, MinuteOf(until) + 1)
    ensures (until - m * MICROS) / MICROS == MinuteOf(until) - m
  {}

  lemma BarTruncated(price: Price, symbol: string, bucket: int, end: int, until: int)
    ensures IntradayBar(price, symbol, bucket, end, until) == IntradayBar(price, symbol, bucket, end, Truncated(until))
  {
    TruncatedMinutes(until, end);
    TruncatedMinutes(Truncated(until), end);
  }

  lemma {:induction false} IntradayTruncated(price: Price, symbol: string, minutes: int, bucket: int, close: int,
                                             until: int)
    requires minutes >= 1
    ensures Intraday(price, symbol, minutes, bucket, close, until)
            == Intraday(price, symbol, minutes, bucket, close, Truncated(until))
    decreases close - bucket
  {
    TruncatedMinutes(until, bucket);
    hide IntradayBar;
    if bucket < close && bucket * MICROS <= until {
      var end := Least(bucket + minutes, close);
      BarTruncated(price, symbol, bucket, end, until);
      IntradayTruncated(price, symbol, minutes, end, close, until);
    }
  }

  lemma DailyTruncated(price: Price, symbol: string, day: int, until: int)
    requires Open(day) * MICROS <= until
    ensures DailyBar(price, symbol, day, until) == DailyBar(price, symbol, day, Truncated(until))
  {
    LastTruncated(Open(day), Close(day), until);
  }

  lemma LastTruncated(open: int, close: int, until: int)
    ensures var last := Least(close * MICROS, until); var last' := Least(close * MICROS, Truncated(until));
            && MinuteOf(last) == MinuteOf(last') == Least(close, MinuteOf(until))
            && (last - open * MICROS) / MICROS == (last' - open * MICROS) / MICROS
               == Least(close, MinuteOf(until)) - open
  {
    TruncatedMinutes(until, close);
    TruncatedMinutes(Truncated(until), close);
    TruncatedMinutes(Least(close * MICROS, until), open);
    TruncatedMinutes(Least(close * MICROS, Truncated(until)), open);
  }

  /** Bars at `until` are the bars at `until` truncated to the minute. */
  lemma {:induction false} BarsTruncated(price: Price, symbol: string, minutes: Option<int>, day: int, endDay: int,
                                         until: int)
    requires minutes.Some? ==> minutes.value >= 1
    ensures Bars(price, symbol, minutes, day, endDay, until)
            == Bars(price, symbol, minutes, day, endDay, Truncated(until))
    decreases endDay - day
  {
    hide Intraday;
    hide DailyBar;
    hide IsSessionDay;
    if day <= endDay {
      if minutes.Some? {
        IntradayTruncated(price, symbol, minutes.value, Open(day), Close(day), until);
      } else {
        TruncatedMinutes(until, Open(day));
        if Open(day) * MICROS <= until {
          DailyTruncated(price, symbol, day, until);
        }
      }
      BarsTruncated(price, symbol, minutes, day + 1, endDay, until);
    }
  }

  // ---- where the bars lie ----

  function DayOf(start: int): int { (start - Open(0)) / 1440 }

  /** The end of the intraday bar that starts there. */
  function EndOf(minutes: int, start: int): int { Least(start + minutes, Close(DayOf(start))) }

  /** Inside its session, and not started after `until`. */
  predicate Placed(from: int, until: int, start: int) {
    && from <= start <= MinuteOf(until)
    && IsSessionDay(DayOf(start)) && Open(DayOf(start)) <= start < Close(DayOf(start))
  }

  /** The next bar starts where this one ends, or at the open of a later day when this one ran to the close. */
  predicate Follows(minutes: int, start: int, next: int) {
    if EndOf(minutes, start) < Close(DayOf(start)) then next == EndOf(minutes, start)
    else next == Open(DayOf(next)) && DayOf(next) > DayOf(start)
  }

  ghost predicate InOrder(minutes: int, bars: seq<Bar>, from: int, until: int) {
    && (forall i | 0 <= i < |bars| :: Placed(from, until, bars[i].start))
    && (forall i | 0 < i < |bars| :: Follows(minutes, bars[i - 1].start, bars[i].start))
  }

  lemma DayOfSession(day: int, start: int)
    requires Open(day) <= start < Close(day)
    ensures DayOf(start) == day
  {}

  lemma IntradayStarts(price: Price, symbol: string, minutes: int, bucket: int, close: int, until: int)
    requires minutes >= 1
    ensures var bars := Intraday(price, symbol, minutes, bucket, close, until);
            bars == [] <==> !(bucket < close && bucket <= MinuteOf(until))
    ensures var bars := Intraday(price, symbol, minutes, bucket, close, until);
            bars != [] ==>
              && bars[0].start == bucket
              && bars[1..] == Intraday(price, symbol, minutes, Least(bucket + minutes, close), close, until)
  {
    TruncatedMinutes(until, bucket);
  }

  lemma InOrderJoin(minutes: int, first: seq<Bar>, rest: seq<Bar>, from: int, later: int, until: int)
    requires InOrder(minutes, first, from, until) && InOrder(minutes, rest, later, until) && from <= later
    requires first != [] && rest != [] ==> Follows(minutes, first[|first| - 1].start, rest[0].start)
    ensures InOrder(minutes, first + rest, from, until)
  {
    forall i | 0 <= i < |rest|
      ensures Placed(from, until, rest[i].start)
    {
      assert Placed(later, until, rest[i].start);
    }
    hide Placed;
    hide Follows;
    var bars := first + rest;
    assert forall i | 0 <= i < |first| :: bars[i] == first[i];
    assert forall i | |first| <= i < |bars| :: bars[i] == rest[i - |first|];
  }

  lemma FirstInOrder(minutes: int, bar: Bar, day: int, until: int)
    requires minutes >= 1 && IsSessionDay(day) && Open(day) <= bar.start < Close(day) && bar.start <= MinuteOf(until)
    ensures DayOf(bar.start) == day && InOrder(minutes, [bar], bar.start, until)
    ensures var end := Least(bar.start + minutes, Close(day)); end < Close(day) ==> Follows(minutes, bar.start, end)
  {
    DayOfSession(day, bar.start);
  }

  lemma {:induction false} IntradayInOrder(price: Price, symbol: string, minutes: int, day: int, bucket: int,
                                           until: int)
    requires minutes >= 1 && IsSessionDay(day) && Open(day) <= bucket <= Close(day)
    ensures InOrder(minutes, Intraday(price, symbol, minutes, bucket, Close(day), until), bucket, until)
    ensures forall b | b in Intraday(price, symbol, minutes, bucket, Close(day), until) :: DayOf(b.start) == day
    decreases Close(day) - bucket
  {
    IntradayStarts(price, symbol, minutes, bucket, Close(day), until);
    var bars := Intraday(price, symbol, minutes, bucket, Close(day), until);
    if bars != [] {
      var end := Least(bucket + minutes, Close(day));
      FirstInOrder(minutes, bars[0], day, until);
      IntradayInOrder(price, symbol, minutes, day, end, until);
      IntradayStarts(price, symbol, minutes, end, Close(day), until);
      hide Intraday;
      hide InOrder;
      hide Follows;
      hide DayOf;
      InOrderJoin(minutes, [bars[0]], bars[1..], bucket, end, until);
      assert bars == [bars[0]] + bars[1..];
    }
  }

  /** Nothing is shown of a day that has not opened. */
  lemma DayBarsFirst(price: Price, symbol: string, minutes: int, day: int, until: int)
    requires minutes >= 1
    ensures DayBars(price, symbol, Some(minutes), day, until) == []
            <==> !IsSessionDay(day) || MinuteOf(until) < Open(day)
    ensures DayBars(price, symbol, Some(minutes), day, until) != []
            ==> DayBars(price, symbol, Some(minutes), day, until)[0].start == Open(day)
  {
    IntradayStarts(price, symbol, minutes, Open(day), Close(day), until);
  }

  lemma DayBarsInOrder(price: Price, symbol: string, minutes: int, day: int, until: int)
    requires minutes >= 1
    ensures InOrder(minutes, DayBars(price, symbol, Some(minutes), day, until), Open(day), until)
    ensures forall b | b in DayBars(price, symbol, Some(minutes), day, until) :: DayOf(b.start) == day
  {
    if IsSessionDay(day) {
      IntradayInOrder(price, symbol, minutes, day, Open(day), until);
    }
  }

  /** The last bar of a day that is followed by a later bar has run to the close. */
  lemma {:induction false} LastToClose(price: Price, symbol: string, minutes: int, day: int, bucket: int, until: int)
    requires minutes >= 1 && Open(day) <= bucket < Close(day) <= MinuteOf(until)
    ensures var bars := Intraday(price, symbol, minutes, bucket, Close(day), until);
            bars != [] && EndOf(minutes, bars[|bars| - 1].start) == Close(day)
    decreases Close(day) - bucket
  {
    IntradayStarts(price, symbol, minutes, bucket, Close(day), until);
    DayOfSession(day, bucket);
    var end := Least(bucket + minutes, Close(day));
    if end < Close(day) {
      LastToClose(price, symbol, minutes, day, end, until);
    } else {
      IntradayStarts(price, symbol, minutes, end, Close(day), until);
    }
  }

  lemma JoinDays(price: Price, symbol: string, minutes: int, day: int, rest: seq<Bar>, until: int)
    requires minutes >= 1 && rest != [] && rest[0].start == Open(DayOf(rest[0].start)) && DayOf(rest[0].start) > day
    requires DayBars(price, symbol, Some(minutes), day, until) != [] && rest[0].start <= MinuteOf(until)
    ensures var first := DayBars(price, symbol, Some(minutes), day, until);
            Follows(minutes, first[|first| - 1].start, rest[0].start)
  {
    var first := DayBars(price, symbol, Some(minutes), day, until);
    DayBarsInOrder(price, symbol, minutes, day, until);
    assert first[|first| - 1] in first;
    LastToClose(price, symbol, minutes, day, Open(day), until);
  }

  lemma {:induction false} BarsInOrder(price: Price, symbol: string, minutes: int, day: int, endDay: int, until: int)
    requires minutes >= 1
    ensures InOrder(minutes, Bars(price, symbol, Some(minutes), day, endDay, until), Open(day), until)
    ensures var bars := Bars(price, symbol, Some(minutes), day, endDay, until);
            bars != [] ==> bars[0].start == Open(DayOf(bars[0].start)) && DayOf(bars[0].start) >= day
    decreases endDay - day
  {
    if day <= endDay {
      var first := DayBars(price, symbol, Some(minutes), day, until);
      var rest := Bars(price, symbol, Some(minutes), day + 1, endDay, until);
      BarsInOrder(price, symbol, minutes, day + 1, endDay, until);
      DayBarsInOrder(price, symbol, minutes, day, until);
      DayBarsFirst(price, symbol, minutes, day, until);
      if first != [] {
        assert first[0] in first && first[|first| - 1] in first;
        if rest != [] {
          JoinDays(price, symbol, minutes, day, rest, until);
        }
      }
      hide DayBars;
      hide InOrder;
      hide DayOf;
      hide Follows;
      InOrderJoin(minutes, first, rest, Open(day), Open(day + 1), until);
    }
  }

  /** Starts strictly increase, and every bar ends by the time the next one starts. */
  lemma {:induction false} StartsIncrease(minutes: int, bars: seq<Bar>, from: int, until: int, i: nat, j: nat)
    requires minutes >= 1 && InOrder(minutes, bars, from, until) && i < j < |bars|
    ensures bars[i].start < EndOf(minutes, bars[i].start) <= bars[j].start
    decreases j
  {
    assert Placed(from, until, bars[j - 1].start) && Placed(from, until, bars[j].start);
    NextStart(minutes, bars[j - 1].start, bars[j].start, from, until);
    if i < j - 1 {
      StartsIncrease(minutes, bars, from, until, i, j - 1);
    }
  }

  lemma NextStart(minutes: int, start: int, next: int, from: int, until: int)
    requires minutes >= 1 && Placed(from, until, start) && Placed(from, until, next) && Follows(minutes, start, next)
    ensures start < EndOf(minutes, start) <= next
  {}

  /** The bars tile the sessions: every session minute up to `until` lies in a bar, and by the order in only one. */
  lemma {:induction false} IntradayCovers(price: Price, symbol: string, minutes: int, day: int, bucket: int, until: int,
                                          t: int)
    returns (i: nat)
    requires minutes >= 1 && Open(day) <= bucket <= t < Close(day) && t <= MinuteOf(until)
    ensures var bars := Intraday(price, symbol, minutes, bucket, Close(day), until);
            i < |bars| && bars[i].start <= t < EndOf(minutes, bars[i].start)
    decreases Close(day) - bucket
  {
    IntradayStarts(price, symbol, minutes, bucket, Close(day), until);
    DayOfSession(day, bucket);
    var end := Least(bucket + minutes, Close(day));
    if t < end {
      i := 0;
    } else {
      var k := IntradayCovers(price, symbol, minutes, day, end, until, t);
      i := k + 1;
    }
  }

  lemma {:induction false} BarsCover(price: Price, symbol: string, minutes: int, day: int, endDay: int, until: int,
                                     d: int, t: int)
    returns (i: nat)
    requires minutes >= 1 && day <= d <= endDay && IsSessionDay(d) && Open(d) <= t < Close(d) && t <= MinuteOf(until)
    ensures var bars := Bars(price, symbol, Some(minutes), day, endDay, until);
            i < |bars| && bars[i].start <= t < EndOf(minutes, bars[i].start)
    decreases endDay - day
  {
    var first := DayBars(price, symbol, Some(minutes), day, until);
    var rest := Bars(price, symbol, Some(minutes), day + 1, endDay, until);
    if d == day {
      i := IntradayCovers(price, symbol, minutes, day, Open(day), until, t);
      assert (first + rest)[i] == first[i];
    } else {
      var k := BarsCover(price, symbol, minutes, day + 1, endDay, until, d, t);
      i := |first| + k;
      assert (first + rest)[i] == rest[k];
    }
  }

  lemma BarsTile(price: Price, symbol: string, minutes: int, day: int, endDay: int, until: int, d: int, t: int)
    requires minutes >= 1 && day <= d <= endDay && IsSessionDay(d) && Open(d) <= t < Close(d) && t <= MinuteOf(until)
    ensures var bars := Bars(price, symbol, Some(minutes), day, endDay, until);
            exists i | 0 <= i < |bars| ::
              Holds(minutes, bars, i, t) && forall j | 0 <= j < |bars| && Holds(minutes, bars, j, t) :: j == i
  {
    var bars := Bars(price, symbol, Some(minutes), day, endDay, until);
    var i := BarsCover(price, symbol, minutes, day, endDay, until, d, t);
    BarsInOrder(price, symbol, minutes, day, endDay, until);
    assert Holds(minutes, bars, i, t);
    forall j | 0 <= j < |bars| && Holds(minutes, bars, j, t)
      ensures j == i
    {
      if j < i {
        StartsIncrease(minutes, bars, Open(day), until, j, i);
      } else if i < j {
        StartsIncrease(minutes, bars, Open(day), until, i, j);
      }
    }
  }

  predicate Holds(minutes: int, bars: seq<Bar>, i: int, t: int)
    requires 0 <= i < |bars|
  {
    bars[i].start <= t < EndOf(minutes, bars[i].start)
  }

  // ---- closed bars never change ----

  /** `later` has every bar of `bars` at its place, and every bar over by one minute past `until` unchanged. */
  ghost predicate Continues(minutes: int, bars: seq<Bar>, later: seq<Bar>, until: int) {
    && |bars| <= |later|
    && (forall i | 0 <= i < |bars| :: Kept(minutes, bars[i], later[i], until))
  }

  predicate Kept(minutes: int, bar: Bar, later: Bar, until: int) {
    bar.start == later.start && (EndOf(minutes, bar.start) <= MinuteOf(until) + 1 ==> bar == later)
  }

  lemma ClosedBar(price: Price, symbol: string, minutes: int, day: int, bucket: int, until: int, later: int)
    requires minutes >= 1 && until <= later && Open(day) <= bucket < Close(day)
    ensures var end := Least(bucket + minutes, Close(day));
            Kept(minutes, IntradayBar(price, symbol, bucket, end, until),
                 IntradayBar(price, symbol, bucket, end, later), until)
  {
    var end := Least(bucket + minutes, Close(day));
    DayOfSession(day, bucket);
    TruncatedMinutes(until, end);
    TruncatedMinutes(later, end);
    assert MinuteOf(until) <= MinuteOf(later);
  }

  lemma {:induction false} IntradayContinues(price: Price, symbol: string, minutes: int, day: int, bucket: int,
                                             until: int, later: int)
    requires minutes >= 1 && until <= later && Open(day) <= bucket <= Close(day)
    ensures var bars := Intraday(price, symbol, minutes, bucket, Close(day), until);
            var more := Intraday(price, symbol, minutes, bucket, Close(day), later);
            Continues(minutes, bars, more, until) && (|bars| < |more| ==> MinuteOf(until) < Close(day))
    decreases Close(day) - bucket
  {
    IntradayStarts(price, symbol, minutes, bucket, Close(day), until);
    IntradayStarts(price, symbol, minutes, bucket, Close(day), later);
    var bars := Intraday(price, symbol, minutes, bucket, Close(day), until);
    var more := Intraday(price, symbol, minutes, bucket, Close(day), later);
    if bars != [] {
      var end := Least(bucket + minutes, Close(day));
      assert MinuteOf(until) <= MinuteOf(later);
      ClosedBar(price, symbol, minutes, day, bucket, until, later);
      IntradayContinues(price, symbol, minutes, day, end, until, later);
      assert bars[0] == IntradayBar(price, symbol, bucket, end, until);
      assert more[0] == IntradayBar(price, symbol, bucket, end, later);
      hide Intraday;
      hide IntradayBar;
      hide Kept;
      assert forall i | 0 < i < |bars| :: bars[i] == bars[1..][i - 1] && more[i] == more[1..][i - 1];
    }
  }

  lemma {:induction false} NothingYet(price: Price, symbol: string, minutes: int, day: int, endDay: int, until: int)
    requires minutes >= 1 && MinuteOf(until) < Open(day)
    ensures Bars(price, symbol, Some(minutes), day, endDay, until) == []
    decreases endDay - day
  {
    if day <= endDay {
      DayBarsFirst(price, symbol, minutes, day, until);
      NothingYet(price, symbol, minutes, day + 1, endDay, until);
    }
  }

  /** The same within one day; and a day that can still grow is the last with any bar. */
  lemma DayContinues(price: Price, symbol: string, minutes: int, day: int, until: int, later: int)
    requires minutes >= 1 && until <= later
    ensures var first := DayBars(price, symbol, Some(minutes), day, until);
            var more := DayBars(price, symbol, Some(minutes), day, later);
            Continues(minutes, first, more, until) && (|first| < |more| ==> MinuteOf(until) < Open(day + 1))
  {
    hide Intraday;
    hide Kept;
    hide IsSessionDay;
    if IsSessionDay(day) {
      IntradayContinues(price, symbol, minutes, day, Open(day), until, later);
    }
  }

  /**
  Bars never repaint: at a later instant every bar is still at its place, and every bar that was over is the same.
  */
  lemma {:induction false} NeverRepaints(price: Price, symbol: string, minutes: int, day: int, endDay: int, until: int,
                                         later: int)
    requires minutes >= 1 && until <= later
    ensures Continues(minutes, Bars(price, symbol, Some(minutes), day, endDay, until),
                      Bars(price, symbol, Some(minutes), day, endDay, later), until)
    decreases endDay - day
  {
    hide DayBars;
    hide Continues;
    hide MinuteOf;
    if day <= endDay {
      var first := DayBars(price, symbol, Some(minutes), day, until);
      var more := DayBars(price, symbol, Some(minutes), day, later);
      var rest := Bars(price, symbol, Some(minutes), day + 1, endDay, until);
      var others := Bars(price, symbol, Some(minutes), day + 1, endDay, later);
      NeverRepaints(price, symbol, minutes, day + 1, endDay, until, later);
      DayContinues(price, symbol, minutes, day, until, later);
      if |first| < |more| {
        NothingYet(price, symbol, minutes, day + 1, endDay, until);
      }
      ContinuesJoin(minutes, first, more, rest, others, until);
    } else {
      NothingContinues(minutes, until);
    }
  }

  lemma NothingContinues(minutes: int, until: int)
    ensures Continues(minutes, [], [], until)
  {}

  lemma ContinuesJoin(minutes: int, first: seq<Bar>, more: seq<Bar>, rest: seq<Bar>, others: seq<Bar>, until: int)
    requires Continues(minutes, first, more, until) && Continues(minutes, rest, others, until)
    requires |first| < |more| ==> rest == []
    ensures Continues(minutes, first + rest, more + others, until)
  {
    hide Kept;
    assert forall i | 0 <= i < |first| :: (first + rest)[i] == first[i] && (more + others)[i] == more[i];
    assert forall i | |first| <= i < |first + rest| ::
             (first + rest)[i] == rest[i - |first|] && (more + others)[i] == others[i - |first|];
  }

  /** All bars but the newest are over: only the newest one can still change. */
  lemma OnlyNewestOpen(price: Price, symbol: string, minutes: int, day: int, endDay: int, until: int, i: nat)
    requires minutes >= 1 && i + 1 < |Bars(price, symbol, Some(minutes), day, endDay, until)|
    ensures EndOf(minutes, Bars(price, symbol, Some(minutes), day, endDay, until)[i].start) <= MinuteOf(until)
  {
    var bars := Bars(price, symbol, Some(minutes), day, endDay, until);
    BarsInOrder(price, symbol, minutes, day, endDay, until);
    StartsIncrease(minutes, bars, Open(day), until, i, i + 1);
    assert Placed(Open(day), until, bars[i + 1].start);
  }

  // ---- no bar looks ahead ----

  ghost predicate AgreeUpTo(p: Price, q: Price, symbol: string, minute: int) {
    forall m | m <= minute :: p(symbol, m) == q(symbol, m)
  }

  lemma {:induction false} SamplesAgree(p: Price, q: Price, symbol: string, first: int, k: int, span: int, step: int)
    requires step > 0 && AgreeUpTo(p, q, symbol, first + span)
    ensures Samples(p, symbol, first, k, span, step) == Samples(q, symbol, first, k, span, step)
    decreases span - k
  {
    if k <= span {
      SamplesAgree(p, q, symbol, first, k + step, span, step);
    }
  }

  lemma IntradayBarAgrees(p: Price, q: Price, symbol: string, bucket: int, end: int, until: int)
    requires bucket <= MinuteOf(until) && AgreeUpTo(p, q, symbol, MinuteOf(until) + 1)
    ensures IntradayBar(p, symbol, bucket, end, until) == IntradayBar(q, symbol, bucket, end, until)
  {
    TruncatedMinutes(until, end);
    var span := Most(1, MinuteOf(Least(end * MICROS, until + MICROS)) - bucket);
    SamplesAgree(p, q, symbol, bucket, 0, span, Most(1, span / 8));
  }

  lemma {:induction false} IntradayAgrees(p: Price, q: Price, symbol: string, minutes: int, bucket: int, close: int,
                                          until: int)
    requires minutes >= 1 && AgreeUpTo(p, q, symbol, MinuteOf(until) + 1)
    ensures Intraday(p, symbol, minutes, bucket, close, until) == Intraday(q, symbol, minutes, bucket, close, until)
    decreases close - bucket
  {
    hide IntradayBar;
    TruncatedMinutes(until, bucket);
    if bucket < close && bucket * MICROS <= until {
      var end := Least(bucket + minutes, close);
      IntradayBarAgrees(p, q, symbol, bucket, end, until);
      IntradayAgrees(p, q, symbol, minutes, end, close, until);
    }
  }

  lemma DailyAgrees(p: Price, q: Price, symbol: string, day: int, until: int)
    requires Open(day) * MICROS <= until && AgreeUpTo(p, q, symbol, MinuteOf(until))
    ensures DailyBar(p, symbol, day, until) == DailyBar(q, symbol, day, until)
  {
    TruncatedMinutes(until, Open(day));
    LastTruncated(Open(day), Close(day), until);
    var span := Most(1, (Least(Close(day) * MICROS, until) - Open(day) * MICROS) / MICROS);
    if Open(day) + span <= MinuteOf(until) {
      SamplesAgree(p, q, symbol, Open(day), 0, span, 15);
    } else {
      assert span == 1;
      assert Samples(p, symbol, Open(day), 0, span, 15)
             == [p(symbol, Open(day))] + Samples(p, symbol, Open(day), 15, span, 15);
      assert Samples(q, symbol, Open(day), 0, span, 15)
             == [q(symbol, Open(day))] + Samples(q, symbol, Open(day), 15, span, 15);
    }
  }

  /** No intraday bar depends on a price later than one minute past `until`; no daily bar on one later than `until`. */
  lemma {:induction false} NoLookAhead(p: Price, q: Price, symbol: string, minutes: Option<int>, day: int, endDay: int,
                                       until: int)
    requires minutes.Some? ==> minutes.value >= 1
    requires AgreeUpTo(p, q, symbol, MinuteOf(until) + if minutes.Some? then 1 else 0)
    ensures Bars(p, symbol, minutes, day, endDay, until) == Bars(q, symbol, minutes, day, endDay, until)
    decreases endDay - day
  {
    hide Intraday;
    hide DailyBar;
    hide IsSessionDay;
    if day <= endDay {
      NoLookAhead(p, q, symbol, minutes, day + 1, endDay, until);
      if minutes.Some? {
        IntradayAgrees(p, q, symbol, minutes.value, Open(day), Close(day), until);
      } else if Open(day) * MICROS <= until {
        DailyAgrees(p, q, symbol, day, until);
      }
    }
  }

  // ---- the shape of a bar ----

  predicate Sound(b: Bar) { b.low <= b.open <= b.high && b.low <= b.close <= b.high }

  lemma {:induction false} Extremes(s: seq<real>)
    requires s != []
    ensures forall i | 0 <= i < |s| :: Lowest(s) <= s[i] <= Highest(s)
  {
    if |s| > 1 {
      Extremes(s[1..]);
      assert forall i | 0 < i < |s| :: s[i] == s[1..][i - 1];
    }
  }

  lemma SoundSamples(samples: seq<real>, c: real)
    requires samples != []
    ensures Lowest(samples + [c]) <= samples[0] <= Highest(samples + [c])
    ensures Lowest(samples + [c]) <= c <= Highest(samples + [c])
  {
    Extremes(samples + [c]);
    assert (samples + [c])[0] == samples[0] && (samples + [c])[|samples|] == c;
  }

  lemma IntradayBarSound(price: Price, symbol: string, bucket: int, end: int, until: int)
    ensures Sound(IntradayBar(price, symbol, bucket, end, until))
  {
    var span := Most(1, MinuteOf(Least(end * MICROS, until + MICROS)) - bucket);
    var samples := Samples(price, symbol, bucket, 0, span, Most(1, span / 8));
    assert samples[0] == price(symbol, bucket + 0);
    SoundSamples(samples, price(symbol, bucket + span));
  }

  lemma DailyBarSound(price: Price, symbol: string, day: int, until: int)
    ensures Sound(DailyBar(price, symbol, day, until))
  {
    var last := Least(Close(day) * MICROS, until);
    var span := Most(1, (last - Open(day) * MICROS) / MICROS);
    var samples := Samples(price, symbol, Open(day), 0, span, 15);
    assert samples[0] == price(symbol, Open(day) + 0);
    SoundSamples(samples, price(symbol, MinuteOf(last)));
  }

  lemma {:induction false} IntradaySound(price: Price, symbol: string, minutes: int, bucket: int, close: int,
                                         until: int)
    requires minutes >= 1
    ensures forall b | b in Intraday(price, symbol, minutes, bucket, close, until) :: Sound(b)
    decreases close - bucket
  {
    hide IntradayBar;
    hide Sound;
    if bucket < close && bucket * MICROS <= until {
      var end := Least(bucket + minutes, close);
      IntradayBarSound(price, symbol, bucket, end, until);
      IntradaySound(price, symbol, minutes, end, close, until);
    }
  }

  /** Low is never above open or close, high never below. */
  lemma {:induction false} BarsSound(price: Price, symbol: string, minutes: Option<int>, day: int, endDay: int,
                                     until: int)
    requires minutes.Some? ==> minutes.value >= 1
    ensures forall b | b in Bars(price, symbol, minutes, day, endDay, until) :: Sound(b)
    decreases endDay - day
  {
    hide Intraday;
    hide DailyBar;
    hide Sound;
    if day <= endDay {
      BarsSound(price, symbol, minutes, day + 1, endDay, until);
      if minutes.Some? {
        IntradaySound(price, symbol, minutes.value, Open(day), Close(day), until);
      } else {
        DailyBarSound(price, symbol, day, until);
      }
    }
  }

  // ---- what the prices of a bar are ----

  /** A whole number of steps. */
  predicate Whole(n: int, step: int)
    requires step > 0
  {
    n >= 0 && n % step == 0
  }

  /** The minutes a bar's high and low are taken from: every step from the first, and the last. */
  predicate Sampled(first: int, last: int, step: int, m: int)
    requires step > 0
  {
    m == last || (m <= last && Whole(m - first, step))
  }

  /** Highest and lowest price over those minutes, each one of them. */
  ghost predicate Spans(price: Price, symbol: string, first: int, last: int, step: int, b: Bar)
    requires step > 0
  {
    && (forall m | Sampled(first, last, step, m) :: b.low <= price(symbol, m) <= b.high)
    && (exists m :: Sampled(first, last, step, m) && price(symbol, m) == b.high)
    && (exists m :: Sampled(first, last, step, m) && price(symbol, m) == b.low)
  }

  /**
  An intraday bar of a day opens at the price of its own minute and closes at the price of its end or of the minute
  after `until`, whichever comes first, a minute on at least.
  */
  ghost predicate PricedIntraday(price: Price, symbol: string, minutes: int, day: int, until: int, b: Bar) {
    var end := Least(b.start + minutes, day * 1440 + 10 * 60);                // 15:30 in India is 10:00 in UTC
    var last := Most(b.start + 1, Least(end, MinuteOf(until) + 1));
    && day * 1440 + 3 * 60 + 45 <= b.start < day * 1440 + 10 * 60
    && b.open == price(symbol, b.start) && b.close == price(symbol, last)
    && Spans(price, symbol, b.start, last, Most(1, (last - b.start) / 8), b)
    && b.volume == 1000.0 + (b.start % 97 * 10) as real
  }

  /** A daily bar stands at midnight in India, opens at 09:15 and closes at 15:30 or at `until`. */
  ghost predicate PricedDaily(price: Price, symbol: string, day: int, until: int, b: Bar) {
    var first := day * 1440 + 3 * 60 + 45;
    var last := Least(day * 1440 + 10 * 60, MinuteOf(until));
    && b.start == (day - 1) * 1440 + 18 * 60 + 30
    && b.open == price(symbol, first) && b.close == price(symbol, last)
    && Spans(price, symbol, first, last, 15, b)
    && b.volume == 100000.0 + (Most(1, last - first) * 10) as real
  }

  /** 1 January 1970 was a Thursday. */
  predicate Weekday(day: int) { day % 7 != 2 && day % 7 != 3 }

  lemma WholeBack(n: int, step: int)
    requires step > 0
    ensures Whole(0, step)
    ensures Whole(n + step, step) <==> n == -step || Whole(n, step)
    ensures n < step && Whole(n, step) ==> n == 0
  {
    if n >= 0 {
      Remainder(n + step, n / step + 1, n % step, step);
    } else if n + step >= 0 {
      Remainder(n + step, 0, n + step, step);
    }
    if 0 <= n < step {
      Remainder(n, 0, n, step);
    }
    Remainder(0, 0, 0, step);
  }

  lemma Remainder(n: int, q: int, r: int, step: int)
    requires 0 <= r < step && n == q * step + r
    ensures n % step == r
  {
    var d := n / step - q;
    assert d * step == r - n % step by {
      assert n == n / step * step + n % step;
      assert d * step == n / step * step - q * step;
    }
    Multiple(d, step);
  }

  lemma Multiple(d: int, step: int)
    requires step > 0
    ensures d >= 1 ==> d * step >= step
    ensures d <= -1 ==> d * step <= -step
  {}

  predicate IsSample(price: Price, symbol: string, first: int, k: int, span: int, step: int, j: int, x: real)
    requires step > 0
  {
    j <= span && Whole(j - k, step) && x == price(symbol, first + j)
  }

  ghost predicate HasSample(price: Price, symbol: string, first: int, k: int, span: int, step: int, x: real)
    requires step > 0
  {
    exists j :: IsSample(price, symbol, first, k, span, step, j, x)
  }

  lemma {:induction false} SamplesAre(price: Price, symbol: string, first: int, k: int, span: int, step: int)
    requires step > 0
    ensures forall x :: x in Samples(price, symbol, first, k, span, step)
                        <==> HasSample(price, symbol, first, k, span, step, x)
    decreases span - k
  {
    hide Whole;
    if k <= span {
      SamplesAre(price, symbol, first, k + step, span, step);
      var rest := Samples(price, symbol, first, k + step, span, step);
      forall x
        ensures x in [price(symbol, first + k)] + rest
                <==> HasSample(price, symbol, first, k, span, step, x)
      {
        WholeBack(0, step);
        if x in rest {
          var j :| IsSample(price, symbol, first, k + step, span, step, j, x);
          WholeBack(j - k - step, step);
          assert IsSample(price, symbol, first, k, span, step, j, x);
        } else if x == price(symbol, first + k) {
          assert IsSample(price, symbol, first, k, span, step, k, x);
        }
        if j :| IsSample(price, symbol, first, k, span, step, j, x) {
          WholeBack(j - k - step, step);
          assert j == k || IsSample(price, symbol, first, k + step, span, step, j, x);
        }
      }
    } else {
      forall x, j
        ensures !IsSample(price, symbol, first, k, span, step, j, x)
      {
        WholeIsPast(j - k, step);
      }
    }
  }

  lemma WholeIsPast(n: int, step: int)
    requires step > 0
    ensures Whole(n, step) ==> n >= 0
  {}

  lemma {:induction false} ExtremesIn(s: seq<real>)
    requires s != []
    ensures Highest(s) in s && Lowest(s) in s
    ensures forall x | x in s :: Lowest(s) <= x <= Highest(s)
  {
    if |s| > 1 {
      ExtremesIn(s[1..]);
      assert s == [s[0]] + s[1..];
    }
  }

  /** Highest and lowest of the samples and the close. */
  lemma SpansSamples(price: Price, symbol: string, first: int, span: int, last: int, step: int, b: Bar)
    requires step > 0 && span >= 1 && first <= last <= first + span && (last == first + span || span < step)
    requires var all := Samples(price, symbol, first, 0, span, step) + [price(symbol, last)];
             b.high == Highest(all) && b.low == Lowest(all)
    ensures Spans(price, symbol, first, last, step, b)
  {
    var samples, c := Samples(price, symbol, first, 0, span, step), price(symbol, last);
    var all := samples + [c];
    SamplesAre(price, symbol, first, 0, span, step);
    ExtremesIn(all);
    hide Samples;
    hide Highest;
    hide Lowest;
    hide Whole;
    forall m | Sampled(first, last, step, m)
      ensures price(symbol, m) in all
    {
      if m != last {
        assert IsSample(price, symbol, first, 0, span, step, m - first, price(symbol, m));
      } else {
        assert all[|samples|] == c;
      }
    }
    forall x | x in all
      ensures exists m :: Sampled(first, last, step, m) && price(symbol, m) == x
    {
      if x in samples {
        assert HasSample(price, symbol, first, 0, span, step, x);
        var j :| IsSample(price, symbol, first, 0, span, step, j, x);
        WholeIsPast(j, step);
        WholeBack(j, step);
        assert Sampled(first, last, step, first + j);
      } else {
        assert Sampled(first, last, step, last) && x == c;
      }
    }
  }

  lemma IntradayBarIs(price: Price, symbol: string, bucket: int, end: int, until: int)
    ensures var last := Most(bucket + 1, Least(end, MinuteOf(until) + 1));
            var c := price(symbol, last);
            var all := Samples(price, symbol, bucket, 0, last - bucket, Most(1, (last - bucket) / 8)) + [c];
            IntradayBar(price, symbol, bucket, end, until)
            == Bar(bucket, price(symbol, bucket), Highest(all), Lowest(all), c, 1000.0 + (bucket % 97 * 10) as real)
  {
    TruncatedMinutes(until, end);
    hide Samples;
    hide Highest;
    hide Lowest;
  }

  lemma IntradayBarPriced(price: Price, symbol: string, minutes: int, day: int, bucket: int, until: int)
    requires minutes >= 1 && Open(day) <= bucket < Close(day)
    ensures PricedIntraday(price, symbol, minutes, day, until,
                           IntradayBar(price, symbol, bucket, Least(bucket + minutes, Close(day)), until))
  {
    var end := Least(bucket + minutes, Close(day));
    var last := Most(bucket + 1, Least(end, MinuteOf(until) + 1));
    IntradayBarIs(price, symbol, bucket, end, until);
    hide Samples;
    hide Highest;
    hide Lowest;
    hide Spans;
    hide IntradayBar;
    hide MinuteOf;
    SpansSamples(price, symbol, bucket, last - bucket, last, Most(1, (last - bucket) / 8),
                 IntradayBar(price, symbol, bucket, end, until));
  }

  lemma DailyBarPriced(price: Price, symbol: string, day: int, until: int)
    requires Open(day) * MICROS <= until
    ensures PricedDaily(price, symbol, day, until, DailyBar(price, symbol, day, until))
  {
    var first := Open(day);
    var last := Least(Close(day), MinuteOf(until));
    TruncatedMinutes(until, Close(day));
    TruncatedMinutes(until, first);
    LastMinutes(Close(day), first, until);
    SpansSamples(price, symbol, first, Most(1, last - first), last, 15, DailyBar(price, symbol, day, until));
    hide Samples;
    hide Highest;
    hide Lowest;
    hide Spans;
  }

  lemma LastMinutes(close: int, first: int, until: int)
    ensures (Least(close * MICROS, until) - first * MICROS) / MICROS == Least(close, MinuteOf(until)) - first
  {}

  lemma {:induction false} IntradayPriced(price: Price, symbol: string, minutes: int, day: int, bucket: int, until: int)
    requires minutes >= 1 && Open(day) <= bucket
    ensures forall b | b in Intraday(price, symbol, minutes, bucket, Close(day), until) ::
              PricedIntraday(price, symbol, minutes, day, until, b)
    decreases Close(day) - bucket
  {
    hide IntradayBar;
    hide PricedIntraday;
    if bucket < Close(day) && bucket * MICROS <= until {
      IntradayBarPriced(price, symbol, minutes, day, bucket, until);
      IntradayPriced(price, symbol, minutes, day, Least(bucket + minutes, Close(day)), until);
    }
  }

  /** A bar of a weekday, with the prices that bar has to have. */
  ghost predicate Priced(price: Price, symbol: string, minutes: Option<int>, day: int, until: int, b: Bar) {
    && Weekday(day)
    && match minutes
       case None => PricedDaily(price, symbol, day, until, b)
       case Some(n) => PricedIntraday(price, symbol, n, day, until, b)
  }

  /** Every bar is one of a weekday asked for, and its prices are the symbol's own at the minutes they stand for. */
  lemma {:induction false} BarsPriced(price: Price, symbol: string, minutes: Option<int>, day: int, endDay: int,
                                      until: int)
    requires minutes.Some? ==> minutes.value >= 1
    ensures forall b | b in Bars(price, symbol, minutes, day, endDay, until) ::
              exists d :: day <= d <= endDay && Priced(price, symbol, minutes, d, until, b)
    decreases endDay - day
  {
    hide Intraday;
    hide DailyBar;
    hide PricedDaily;
    hide PricedIntraday;
    if day <= endDay {
      BarsPriced(price, symbol, minutes, day + 1, endDay, until);
      if IsSessionDay(day) {
        if minutes.Some? {
          IntradayPriced(price, symbol, minutes.value, day, Open(day), until);
        } else if Open(day) * MICROS <= until {
          DailyBarPriced(price, symbol, day, until);
        }
      }
      forall b | b in DayBars(price, symbol, minutes, day, until)
        ensures Priced(price, symbol, minutes, day, until, b)
      {}
    }
  }

  // ---- which daily bars there are ----

  /** A weekday asked for whose session, at 03:45 in UTC, has opened by `until`. */
  predicate HasDaily(day: int, endDay: int, until: int, d: int) {
    day <= d <= endDay && Weekday(d) && (d * 1440 + 3 * 60 + 45) * 60_000_000 <= until
  }

  /** Every bar stands at midnight in India on such a day. */
  ghost predicate OnlyDaily(day: int, endDay: int, until: int, bars: seq<Bar>) {
    forall b | b in bars :: exists d :: HasDaily(day, endDay, until, d) && b.start == d * 1440 - 330
  }

  /** Every such day has its bar. */
  ghost predicate EachDaily(day: int, endDay: int, until: int, bars: seq<Bar>) {
    forall d | HasDaily(day, endDay, until, d) :: exists b | b in bars :: b.start == d * 1440 - 330
  }

  /** The daily bars are those of the weekdays asked for that have opened, one each, in the order of the days. */
  lemma {:induction false} DailyExactly(price: Price, symbol: string, day: int, endDay: int, until: int)
    ensures var bars := Bars(price, symbol, None, day, endDay, until);
            && OnlyDaily(day, endDay, until, bars) && EachDaily(day, endDay, until, bars)
            && forall i, j | 0 <= i < j < |bars| :: bars[i].start < bars[j].start
    decreases endDay - day
  {
    hide OnlyDaily;
    hide EachDaily;
    if day <= endDay {
      DailyExactly(price, symbol, day + 1, endDay, until);
      hide DailyBar;
      var bars, rest := DayBars(price, symbol, None, day, until), Bars(price, symbol, None, day + 1, endDay, until);
      DayDaily(price, symbol, day, endDay, until);
      OnlyJoin(day, endDay, until, bars, rest);
      EachJoin(day, endDay, until, bars, rest);
      hide DayBars;
      RisingJoin(day, endDay, until, bars, rest);
    } else {
      NoneDaily(day, endDay, until);
    }
  }

  lemma NoneDaily(day: int, endDay: int, until: int)
    requires day > endDay
    ensures OnlyDaily(day, endDay, until, []) && EachDaily(day, endDay, until, [])
  {}

  lemma DayDaily(price: Price, symbol: string, day: int, endDay: int, until: int)
    requires day <= endDay
    ensures var bars := DayBars(price, symbol, None, day, until);
            && |bars| <= 1 && (bars == [] <==> !HasDaily(day, endDay, until, day))
            && forall b | b in bars :: b.start == day * 1440 - 330
  {
    DailyStart(price, symbol, day, until);
    hide DailyBar;
  }

  lemma OnlyJoin(day: int, endDay: int, until: int, bars: seq<Bar>, rest: seq<Bar>)
    requires |bars| <= 1 && (bars == [] <==> !HasDaily(day, endDay, until, day))
    requires (forall b | b in bars :: b.start == day * 1440 - 330) && OnlyDaily(day + 1, endDay, until, rest)
    ensures OnlyDaily(day, endDay, until, bars + rest)
  {
    forall b | b in bars + rest
      ensures exists d :: HasDaily(day, endDay, until, d) && b.start == d * 1440 - 330
    {
      if b in rest {
        var d :| HasDaily(day + 1, endDay, until, d) && b.start == d * 1440 - 330;
        assert HasDaily(day, endDay, until, d);
      }
    }
  }

  lemma EachJoin(day: int, endDay: int, until: int, bars: seq<Bar>, rest: seq<Bar>)
    requires |bars| <= 1 && (bars == [] <==> !HasDaily(day, endDay, until, day))
    requires (forall b | b in bars :: b.start == day * 1440 - 330) && EachDaily(day + 1, endDay, until, rest)
    ensures EachDaily(day, endDay, until, bars + rest)
  {
    forall d | HasDaily(day, endDay, until, d)
      ensures exists b | b in bars + rest :: b.start == d * 1440 - 330
    {
      if d == day {
        assert bars[0] in bars + rest;
      } else {
        assert HasDaily(day + 1, endDay, until, d);
        var b :| b in rest && b.start == d * 1440 - 330;
        assert b in bars + rest;
      }
    }
  }

  lemma RisingJoin(day: int, endDay: int, until: int, bars: seq<Bar>, rest: seq<Bar>)
    requires |bars| <= 1 && (forall b | b in bars :: b.start == day * 1440 - 330)
    requires OnlyDaily(day + 1, endDay, until, rest)
    requires forall i, j | 0 <= i < j < |rest| :: rest[i].start < rest[j].start
    ensures forall i, j | 0 <= i < j < |bars + rest| :: (bars + rest)[i].start < (bars + rest)[j].start
  {
    forall b | b in rest
      ensures b.start > day * 1440 - 330
    {
      var d :| HasDaily(day + 1, endDay, until, d) && b.start == d * 1440 - 330;
    }
    hide OnlyDaily;
    assert forall i | 0 <= i < |rest| :: rest[i] in rest;
  }

  lemma DailyStart(price: Price, symbol: string, day: int, until: int)
    ensures DailyBar(price, symbol, day, until).start == day * 1440 - 330
  {
    hide Samples;
    hide Highest;
    hide Lowest;
  }
}
