/** The loops that build the bars, and the least-recently-used cache in front of them. */
module FakeBroker {
  import opened Sequences
  import opened Wrappers
  import opened FakeBars

  lemma DayStep(price: Price, symbol: string, minutes: Option<int>, day: int, endDay: int, until: int, before: seq<Bar>)
    requires minutes.Some? ==> minutes.value >= 1
    requires day <= endDay
    ensures before + Bars(price, symbol, minutes, day, endDay, until)
            == before + DayBars(price, symbol, minutes, day, until)
              + Bars(price, symbol, minutes, day + 1, endDay, until)
  {
    Associate(before, DayBars(price, symbol, minutes, day, until),
              Bars(price, symbol, minutes, day + 1, endDay, until));
  }

  lemma Associate(a: seq<Bar>, b: seq<Bar>, c: seq<Bar>)
    ensures a + (b + c) == a + b + c
  {}

  method BarsPerMinute(price: Price, symbol: string, minutes: Option<int>, startDay: int, endDay: int, until: int)
    returns (out: seq<Bar>)
    requires minutes.Some? ==> minutes.value >= 1
    ensures out == Bars(price, symbol, minutes, startDay, endDay, until)
  {
    hide Bars;
    hide IsSessionDay;
    hide DailyBar;
    hide Intraday;
    out := [];
    var day := startDay;
    assert [] + Bars(price, symbol, minutes, startDay, endDay, until)
           == Bars(price, symbol, minutes, startDay, endDay, until);
    while day <= endDay
      invariant out + Bars(price, symbol, minutes, day, endDay, until)
                == Bars(price, symbol, minutes, startDay, endDay, until)
      decreases endDay - day
    {
      DayStep(price, symbol, minutes, day, endDay, until, out);
      ghost var before := out;
      if IsSessionDay(day) {
        if minutes.None? {
          if Open(day) * MICROS <= until {
            out := out + [DailyBar(price, symbol, day, until)];
          }
        } else {
          var today := IntradayLoop(price, symbol, minutes.value, day, until);
          out := out + today;
        }
      }
      assert out == before + DayBars(price, symbol, minutes, day, until);
      day := day + 1;
    }
    NoDays(price, symbol, minutes, day, endDay, until);
    assert out + [] == out;
  }

  lemma NoDays(price: Price, symbol: string, minutes: Option<int>, day: int, endDay: int, until: int)
    requires day > endDay && (minutes.Some? ==> minutes.value >= 1)
    ensures Bars(price, symbol, minutes, day, endDay, until) == []
  {}

  method IntradayLoop(price: Price, symbol: string, minutes: int, day: int, until: int) returns (out: seq<Bar>)
    requires minutes >= 1
    ensures out == Intraday(price, symbol, minutes, Open(day), Close(day), until)
  {
    hide IntradayBar;
    out := [];
    var bucket := Open(day);
    while bucket < Close(day) && bucket * MICROS <= until
      invariant out + Intraday(price, symbol, minutes, bucket, Close(day), until)
             == Intraday(price, symbol, minutes, Open(day), Close(day), until)
      decreases Close(day) - bucket
    {
      var end := Least(bucket + minutes, Close(day));
      ghost var rest := Intraday(price, symbol, minutes, end, Close(day), until);
      ghost var before := out;
      var bar := IntradayBar(price, symbol, bucket, end, until);
      out := out + [bar];
      assert before + ([bar] + rest) == out + rest;
      bucket := end;
    }
    assert out + [] == out;
  }

  datatype Key = Key(symbol: string, minutes: Option<int>, startDay: int, endDay: int, until: int)

  const MAX_SIZE := 4096

  function Direct(price: Price, k: Key): seq<Bar>
    requires k.minutes.Some? ==> k.minutes.value >= 1
  {
    Bars(price, k.symbol, k.minutes, k.startDay, k.endDay, k.until)
  }

  // ---- the order of use ----

  function Without(s: seq<Key>, k: Key): seq<Key> {
    if s == [] then [] else if s[0] == k then Without(s[1..], k) else [s[0]] + Without(s[1..], k)
  }

  /** The key goes to the end: most recently used. */
  lemma {:induction false} WithoutHas(s: seq<Key>, k: Key)
    requires Distinct(s)
    ensures Distinct(Without(s, k)) && (forall j :: j in Without(s, k) <==> j in s && j != k)
    ensures |Without(s, k)| == if k in s then |s| - 1 else |s|
  {
    if s != [] {
      WithoutHas(s[1..], k);
      assert s == [s[0]] + s[1..];
      assert s[0] !in s[1..];
    }
  }

  lemma Appended(s: seq<Key>, k: Key)
    requires Distinct(s) && k !in s
    ensures Distinct(s + [k]) && (forall j :: j in s + [k] <==> j in s || j == k)
  {}

  lemma Dropped(s: seq<Key>)
    requires Distinct(s) && s != []
    ensures Distinct(s[1..]) && (forall j :: j in s[1..] <==> j in s && j != s[0])
  {
    assert s == [s[0]] + s[1..];
  }

  /** The cache holds direct answers only, at most MAX_SIZE of them, each key once in the order of use. */
  ghost predicate Sane(price: Price, memo: map<Key, seq<Bar>>, recent: seq<Key>) {
    && Distinct(recent)
    && (forall k :: k in recent <==> k in memo)
    && |recent| <= MAX_SIZE
    && (forall k | k in memo :: IsDirect(price, k, memo[k]))
  }

  ghost predicate IsDirect(price: Price, k: Key, bars: seq<Bar>) {
    (k.minutes.Some? ==> k.minutes.value >= 1) && bars == Direct(price, k)
  }

  lemma Hit(price: Price, memo: map<Key, seq<Bar>>, recent: seq<Key>, key: Key)
    requires Sane(price, memo, recent) && key in memo
    ensures Sane(price, memo, Without(recent, key) + [key])
  {
    hide IsDirect;
    WithoutHas(recent, key);
    hide Without;
    Appended(Without(recent, key), key);
    hide Distinct;
  }

  lemma Store(price: Price, memo: map<Key, seq<Bar>>, recent: seq<Key>, key: Key, bars: seq<Bar>)
    requires Sane(price, memo, recent) && key !in memo && |recent| < MAX_SIZE && IsDirect(price, key, bars)
    ensures Sane(price, memo[key := bars], recent + [key])
  {
    hide IsDirect;
    Appended(recent, key);
    hide Distinct;
  }

  lemma Evict(price: Price, memo: map<Key, seq<Bar>>, recent: seq<Key>)
    requires Sane(price, memo, recent) && recent != []
    ensures Sane(price, memo - {recent[0]}, recent[1..])
  {
    hide IsDirect;
    Dropped(recent);
    hide Distinct;
  }

  class BarCache {
    const price: Price
    var memo: map<Key, seq<Bar>>
    var recent: seq<Key>   // the keys of memo, least recently used first

    ghost predicate Valid()
      reads this
    {
      Sane(price, memo, recent)
    }

    constructor (price: Price)
      ensures Valid() && this.price == price && memo == map[]
    {
      this.price := price;
      memo, recent := map[], [];
    }

    /** `bars`: whatever was asked before, the answer is the direct one for the very instant asked for. */
    method Answer(symbol: string, minutes: Option<int>, startDay: int, endDay: int, until: int) returns (out: seq<Bar>)
      requires Valid() && (minutes.Some? ==> minutes.value >= 1)
      modifies this
      ensures Valid()
      ensures out == Bars(price, symbol, minutes, startDay, endDay, until)
      ensures recent != [] && recent[|recent| - 1] == Key(symbol, minutes, startDay, endDay, Truncated(until))
      ensures forall k | k in old(memo) && k !in memo ::
                old(recent) != [] && k == old(recent)[0] && |old(recent)| == MAX_SIZE
    {
      var key := Key(symbol, minutes, startDay, endDay, Truncated(until));
      BarsTruncated(price, symbol, minutes, startDay, endDay, until);
      ghost var direct := Bars(price, symbol, minutes, startDay, endDay, until);
      assert forall bars :: IsDirect(price, key, bars) <==> bars == direct;
      hide IsDirect;
      hide Bars;
      hide Truncated;
      hide Distinct;
      hide Without;
      if key in memo {
        out := memo[key];
        Hit(price, memo, recent, key);
        recent := Without(recent, key) + [key];
      } else {
        out := BarsPerMinute(price, symbol, minutes, startDay, endDay, Truncated(until));
        if |recent| == MAX_SIZE {
          Evict(price, memo, recent);
          memo := memo - {recent[0]};
          recent := recent[1..];
        }
        Store(price, memo, recent, key, out);
        memo := memo[key := out];
        recent := recent + [key];
      }
    }
  }
}
