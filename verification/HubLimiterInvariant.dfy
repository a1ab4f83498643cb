/** One call of `take` answers as the full history does, and keeps the invariant that says so. */
module HubLimiterInvariant {
  import opened Wrappers
  import opened HubLimiter

  // ---- sequences ----

  lemma {:induction false} AfterParts(h: seq<real>, c: real)
    requires Sorted(h)
    ensures forall k | 0 <= k < |After(h, c)| :: After(h, c)[k] > c && After(h, c)[k] in h
    ensures Sorted(After(h, c))
  {
    if h != [] {
      AfterParts(h[..|h| - 1], c);
    }
  }

  lemma {:induction false} NoneAfter(h: seq<real>, c: real)
    requires forall k | 0 <= k < |h| :: h[k] <= c
    ensures After(h, c) == []
  {
    if h != [] {
      NoneAfter(h[..|h| - 1], c);
    }
  }

  lemma {:induction false} AfterTwice(h: seq<real>, c: real, d: real)
    requires c <= d
    ensures After(After(h, c), d) == After(h, d)
  {
    if h != [] {
      var front, last := h[..|h| - 1], h[|h| - 1];
      AfterTwice(front, c, d);
      if last > c {
        assert After(h, c)[..|After(h, c)| - 1] == After(front, c);
      }
    }
  }

  lemma {:induction false} PurgedTwice(q: seq<real>, c: real, d: real)
    requires c <= d
    ensures Purged(Purged(q, c), d) == Purged(q, d)
    decreases |q|
  {
    if |q| > 0 && q[0] <= c {
      PurgedTwice(q[1..], c, d);
    }
  }

  lemma {:induction false} PurgedTimes(t: real, n: nat, rest: seq<real>, d: real)
    ensures t <= d ==> Purged(Times(t, n) + rest, d) == Purged(rest, d)
    ensures t > d && n > 0 ==> Purged(Times(t, n) + rest, d) == Times(t, n) + rest
    decreases n
  {
    if n == 0 {
      assert Times(t, n) + rest == rest;
    } else {
      TimesFront(t, n);
      PurgedTimes(t, n - 1, rest, d);
      assert (Times(t, n) + rest)[1..] == Times(t, n - 1) + rest;
    }
  }

  lemma {:induction false} TimesFront(t: real, n: nat)
    requires n > 0
    ensures Times(t, n) == [t] + Times(t, n - 1)
  {
    if n > 1 {
      TimesFront(t, n - 1);
    }
  }

  lemma {:induction false} PurgedAppend(a: seq<real>, b: seq<real>, d: real)
    ensures Purged(a + b, d) == if Purged(a, d) == [] then Purged(b, d) else Purged(a, d) + b
    decreases |a|
  {
    if a == [] {
      assert a + b == b;
    } else {
      assert (a + b)[1..] == a[1..] + b;
      PurgedAppend(a[1..], b, d);
    }
  }

  lemma {:induction false} RepeatedLength(h: seq<real>, m: nat)
    ensures |Repeated(h, m)| == m * |h|
  {
    if h == [] {
      assert m * |h| == 0;
    } else {
      RepeatedLength(h[..|h| - 1], m);
      TimesLength(h[|h| - 1], m);
      OneMore(m, |h|);
    }
  }

  lemma OneMore(m: nat, n: nat)
    requires n > 0
    ensures m * (n - 1) + m == m * n
  {}

  lemma {:induction false} TimesLength(t: real, n: nat)
    ensures |Times(t, n)| == n
  {
    if n > 0 {
      TimesLength(t, n - 1);
    }
  }

  /** A queue that holds a history drops exactly what the history itself would drop. */
  lemma {:induction false} PurgedRepeated(h: seq<real>, m: nat, d: real)
    requires Sorted(h) && m > 0
    ensures Purged(Repeated(h, m), d) == Repeated(After(h, d), m)
  {
    if h != [] {
      var front, last := h[..|h| - 1], h[|h| - 1];
      PurgedRepeated(front, m, d);
      PurgedAppend(Repeated(front, m), Times(last, m), d);
      PurgedTimes(last, m, [], d);
      assert Times(last, m) + [] == Times(last, m);
      RepeatedLength(After(front, d), m);
      AfterParts(front, d);
      if last > d {
        assert After(h, d)[..|After(h, d)| - 1] == After(front, d);
      } else {
        NoneAfter(front, d);
      }
    }
  }

  // ---- one call keeps the invariant ----

  lemma MultPositive(ws: seq<Window>, i: nat, j: nat)
    requires i <= j < |ws|
    ensures Mult(ws, i, ws[j].seconds) > 0
    decreases j - i
  {
    if i < j {
      MultPositive(ws, i + 1, j);
    }
  }

  lemma QueuesLater(cfg: Config, h: seq<real>, calls: map<real, seq<real>>, now: real, t: real)
    requires Sorted(h) && QueuesExact(cfg, h, calls, now) && now <= t
    ensures QueuesExact(cfg, h, calls, t)
  {
    forall i | 0 <= i < |cfg.windows|
      ensures QueueExact(cfg, h, calls, t, i)
    {
      assert QueueExact(cfg, h, calls, now, i);
      var s := cfg.windows[i].seconds;
      MultPositive(cfg.windows, 0, i);
      QueueLater(h, Queue(calls, s), Mult(cfg.windows, 0, s), now - s, t - s);
    }
  }

  lemma QueueLater(h: seq<real>, q: seq<real>, m: nat, c: real, d: real)
    requires Sorted(h) && m > 0 && c <= d && Purged(q, c) == Repeated(After(h, c), m)
    ensures Purged(q, d) == Repeated(After(h, d), m)
  {
    PurgedTwice(q, c, d);
    AfterTwice(h, c, d);
    AfterParts(h, c);
    PurgedRepeated(After(h, c), m, d);
  }

  lemma RoomExact(cfg: Config, h: seq<real>, i: nat, calls: map<real, seq<real>>, t: real)
    requires i < |cfg.windows| && QueueExact(cfg, h, calls, t, i)
    ensures var w := cfg.windows[i];
            WindowRoom(cfg, h, t, i) <==> |Purged(Queue(calls, w.seconds), t - w.seconds)| + 1 <= w.limit
  {
    var s := cfg.windows[i].seconds;
    RepeatedLength(After(h, t - s), Mult(cfg.windows, 0, s));
  }

  /** The window loop refuses exactly when some window has no room in the full history, and loses nothing live. */
  lemma {:induction false} AdmitExact(cfg: Config, h: seq<real>, i: nat, calls: map<real, seq<real>>, t: real)
    requires i <= |cfg.windows| && QueuesExact(cfg, h, calls, t)
    ensures QueuesExact(cfg, h, Admit(cfg.windows, i, calls, t).1, t)
    ensures Admit(cfg.windows, i, calls, t).0 <==> forall j | i <= j < |cfg.windows| :: WindowRoom(cfg, h, t, j)
    decreases |cfg.windows| - i
  {
    hide WindowRoom;
    if i < |cfg.windows| {
      var s := cfg.windows[i].seconds;
      var q := Purged(Queue(calls, s), t - s);
      var purged := calls[s := q];
      RoomExact(cfg, h, i, calls, t);
      forall j | 0 <= j < |cfg.windows|
        ensures QueueExact(cfg, h, purged, t, j)
      {
        assert QueueExact(cfg, h, calls, t, j);
        PurgedTwice(Queue(calls, s), t - s, t - s);
      }
      AdmitExact(cfg, h, i + 1, purged, t);
    }
  }

  lemma {:induction false} RecordQueues(ws: seq<Window>, i: nat, calls: map<real, seq<real>>, t: real, s: real)
    requires i <= |ws|
    ensures Queue(Record(ws, i, calls, t), s) == Queue(calls, s) + Times(t, Mult(ws, i, s))
    decreases |ws| - i
  {
    if i < |ws| {
      var w := ws[i].seconds;
      RecordQueues(ws, i + 1, calls[w := Queue(calls, w) + [t]], t, s);
      if w == s {
        TimesFront(t, Mult(ws, i, s));
        assert Queue(calls, s) + [t] + Times(t, Mult(ws, i + 1, s)) == Queue(calls, s) + Times(t, Mult(ws, i, s));
      }
    }
  }

  lemma RecordExact(cfg: Config, h: seq<real>, calls: map<real, seq<real>>, t: real)
    requires Sorted(h) && (forall k | 0 <= k < |h| :: h[k] <= t) && QueuesExact(cfg, h, calls, t)
    ensures QueuesExact(cfg, h + [t], Record(cfg.windows, 0, calls, t), t)
  {
    forall i | 0 <= i < |cfg.windows|
      ensures QueueExact(cfg, h + [t], Record(cfg.windows, 0, calls, t), t, i)
    {
      assert QueueExact(cfg, h, calls, t, i);
      var s := cfg.windows[i].seconds;
      RecordQueues(cfg.windows, 0, calls, t, s);
      MultPositive(cfg.windows, 0, i);
      QueueRecord(h, Queue(calls, s), Mult(cfg.windows, 0, s), t, t - s);
    }
  }

  lemma QueueRecord(h: seq<real>, q: seq<real>, m: nat, t: real, c: real)
    requires Sorted(h) && m > 0 && (forall k | 0 <= k < |h| :: h[k] <= t) && Purged(q, c) == Repeated(After(h, c), m)
    ensures Purged(q + Times(t, m), c) == Repeated(After(h + [t], c), m)
  {
    PurgedAppend(q, Times(t, m), c);
    PurgedTimes(t, m, [], c);
    assert Times(t, m) + [] == Times(t, m);
    assert (h + [t])[..|h|] == h;
    var live := After(h, c);
    if t > c {
      assert After(h + [t], c) == live + [t] && (live + [t])[..|live|] == live;
    } else {
      NoneAfter(h, c);
    }
  }

  lemma RefillTwice(cap: real, rate: real, x: real, d: real, e: real)
    requires rate >= 0.0 && d >= 0.0 && e >= 0.0
    ensures Refill(cap, rate, Refill(cap, rate, x, d), e) == Refill(cap, rate, x, d + e)
  {
    assert (d + e) * rate == d * rate + e * rate;
    assert e * rate >= 0.0;
  }

  lemma RefillFull(cap: real, rate: real, d: real)
    requires rate >= 0.0 && d >= 0.0
    ensures Refill(cap, rate, cap, d) == cap
  {
    assert d * rate >= 0.0;
  }

  /** Filling the bucket to `now` and going on from there is the same as not having looked at `now`. */
  lemma LevelLater(cfg: Config, h: seq<real>, now: real, t: real)
    requires cfg.HasBucket() && cfg.NeverDrains() && now <= t && (forall k | 0 <= k < |h| :: h[k] <= now)
    ensures Refill(cfg.capacity.value, cfg.rate.value, Level(cfg, h, now), t - now) == Level(cfg, h, t)
  {
    var cap, rate := cfg.capacity.value, cfg.rate.value;
    if h == [] {
      RefillFull(cap, rate, t - now);
    } else {
      var last := h[|h| - 1];
      var x, d, e := Level(cfg, h[..|h| - 1], last) - 1.0, now - last, t - now;
      RefillTwice(cap, rate, x, d, e);
      assert d + e == t - last;
    }
  }

  /** One call answers as the reference does, and keeps the invariant for the reference's new history. */
  lemma StepExact(cfg: Config, h: seq<real>, st: State, now: real, t: real)
    requires cfg.NeverDrains() && Inv(cfg, h, st, now) && now <= t
    ensures Step(cfg, st, t).1 == ReferenceOk(cfg, h, t)
    ensures Inv(cfg, if ReferenceOk(cfg, h, t) then h + [t] else h, Step(cfg, st, t).0, t)
  {
    QueuesLater(cfg, h, st.calls, now, t);
    AdmitExact(cfg, h, 0, st.calls, t);
    var (room, calls) := Admit(cfg.windows, 0, st.calls, t);
    var (next, ok) := Step(cfg, st, t);
    if room {
      RecordExact(cfg, h, calls, t);
      if cfg.HasBucket() {
        BucketStep(cfg, h, st, now, t, calls);
      }
    }
  }

  lemma BucketStep(cfg: Config, h: seq<real>, st: State, now: real, t: real, calls: map<real, seq<real>>)
    requires cfg.HasBucket() && cfg.NeverDrains() && now <= t && (forall k | 0 <= k < |h| :: h[k] <= now)
    requires BucketExact(cfg, h, st, now)
    ensures Refilled(cfg, st, t) == Level(cfg, h, t)
    ensures BucketExact(cfg, h, State(calls, Some(Refilled(cfg, st, t)), t), t)
    ensures BucketExact(cfg, h + [t], State(Record(cfg.windows, 0, calls, t), Some(Refilled(cfg, st, t) - 1.0), t), t)
  {
    var level := Level(cfg, h, t);
    assert Refilled(cfg, st, t) == level;
    var kept := State(calls, Some(level), t);
    forall u | u >= t
      ensures Refilled(cfg, kept, u) == Level(cfg, h, u)
    {
      LevelLater(cfg, h, t, u);
    }
    var spent := State(Record(cfg.windows, 0, calls, t), Some(level - 1.0), t);
    forall u | u >= t
      ensures Refilled(cfg, spent, u) == Level(cfg, h + [t], u)
    {
      assert (h + [t])[..|h|] == h;
    }
  }

  lemma {:induction false} RunExact(cfg: Config, h: seq<real>, st: State, now: real, ts: seq<real>)
    requires cfg.NeverDrains() && Inv(cfg, h, st, now) && Sorted(ts) && NotBefore(ts, now)
    ensures Run(cfg, st, ts).1 == ReferenceAnswers(cfg, h, ts)
    ensures Inv(cfg, ReferenceHistory(cfg, h, ts), Run(cfg, st, ts).0, if ts == [] then now else ts[|ts| - 1])
    decreases |ts|
  {
    hide Inv;
    hide Step;
    hide ReferenceOk;
    if ts != [] {
      StepExact(cfg, h, st, now, ts[0]);
      RunExact(cfg, if ReferenceOk(cfg, h, ts[0]) then h + [ts[0]] else h, Step(cfg, st, ts[0]).0, ts[0], ts[1..]);
    }
  }
}
