/** What every run of `take` at nondecreasing times keeps. */
module HubLimiterBounds {
  import opened Wrappers
  import opened HubLimiter
  import opened HubLimiterInvariant

  lemma StartsExact(cfg: Config, now: real)
    requires cfg.NeverDrains()
    ensures Inv(cfg, [], INITIAL, now)
  {
    forall i | 0 <= i < |cfg.windows|
      ensures QueueExact(cfg, [], INITIAL.calls, now, i)
    {}
  }

  function Start(ts: seq<real>): real { if ts == [] then 0.0 else ts[0] }

  function End(ts: seq<real>): real { if ts == [] then 0.0 else ts[|ts| - 1] }

  /** The limiter with purged queues and a stored token count answers as the full history does. */
  lemma FaithfulRun(cfg: Config, ts: seq<real>)
    requires cfg.NeverDrains() && Sorted(ts)
    ensures Run(cfg, INITIAL, ts).1 == ReferenceAnswers(cfg, [], ts)
    ensures Inv(cfg, ReferenceHistory(cfg, [], ts), Run(cfg, INITIAL, ts).0, End(ts))
  {
    StartsExact(cfg, Start(ts));
    RunExact(cfg, [], INITIAL, Start(ts), ts);
  }

  /** The accepted calls, read off a run's own answers. */
  function Granted(ts: seq<real>, oks: seq<bool>): seq<real>
    requires |ts| == |oks|
    decreases |ts|
  {
    if ts == [] then [] else (if oks[0] then [ts[0]] else []) + Granted(ts[1..], oks[1..])
  }

  lemma {:induction false} RunLength(cfg: Config, st: State, ts: seq<real>)
    ensures |Run(cfg, st, ts).1| == |ts|
    decreases |ts|
  {
    if ts != [] {
      RunLength(cfg, Step(cfg, st, ts[0]).0, ts[1..]);
    }
  }

  lemma {:induction false} GrantedIsHistory(cfg: Config, h: seq<real>, ts: seq<real>)
    ensures |ReferenceAnswers(cfg, h, ts)| == |ts|
    ensures ReferenceHistory(cfg, h, ts) == h + Granted(ts, ReferenceAnswers(cfg, h, ts))
    decreases |ts|
  {
    if ts == [] {
      assert h + [] == h;
    } else {
      GrantedIsHistory(cfg, if ReferenceOk(cfg, h, ts[0]) then h + [ts[0]] else h, ts[1..]);
    }
  }

  /** Every accepted call was allowed by the history before it. */
  predicate Admissible(cfg: Config, h: seq<real>) {
    forall k | 0 <= k < |h| :: ReferenceOk(cfg, h[..k], h[k])
  }

  lemma {:induction false} HistoryAdmissible(cfg: Config, h: seq<real>, ts: seq<real>)
    requires Admissible(cfg, h)
    ensures Admissible(cfg, ReferenceHistory(cfg, h, ts))
    decreases |ts|
  {
    if ts != [] {
      var next := if ReferenceOk(cfg, h, ts[0]) then h + [ts[0]] else h;
      forall k | 0 <= k < |next|
        ensures ReferenceOk(cfg, next[..k], next[k])
      {
        assert next[..k] == h[..k];
      }
      HistoryAdmissible(cfg, next, ts[1..]);
    }
  }

  lemma GrantedAdmissible(cfg: Config, ts: seq<real>)
    requires cfg.NeverDrains() && Sorted(ts)
    ensures |Run(cfg, INITIAL, ts).1| == |ts|
    ensures var h := Granted(ts, Run(cfg, INITIAL, ts).1); Sorted(h) && Admissible(cfg, h)
  {
    FaithfulRun(cfg, ts);
    GrantedIsHistory(cfg, [], ts);
    HistoryAdmissible(cfg, [], ts);
    assert [] + Granted(ts, Run(cfg, INITIAL, ts).1) == Granted(ts, Run(cfg, INITIAL, ts).1);
  }

  /** How many of the calls lie in (lo, hi]. */
  function CountIn(h: seq<real>, lo: real, hi: real): nat {
    if h == [] then 0
    else CountIn(h[..|h| - 1], lo, hi) + if lo < h[|h| - 1] <= hi then 1 else 0
  }

  /** How many of the calls lie in [lo, hi]. */
  function CountWithin(h: seq<real>, lo: real, hi: real): nat {
    if h == [] then 0
    else CountWithin(h[..|h| - 1], lo, hi) + if lo <= h[|h| - 1] <= hi then 1 else 0
  }

  lemma {:induction false} CountInAfter(h: seq<real>, lo: real, hi: real, c: real)
    requires c <= lo
    ensures CountIn(h, lo, hi) <= |After(h, c)|
  {
    if h != [] {
      CountInAfter(h[..|h| - 1], lo, hi, c);
    }
  }

  lemma AdmissibleFront(cfg: Config, h: seq<real>)
    requires Admissible(cfg, h) && h != []
    ensures Admissible(cfg, h[..|h| - 1]) && ReferenceOk(cfg, h[..|h| - 1], h[|h| - 1])
  {
    var front := h[..|h| - 1];
    forall k | 0 <= k < |front|
      ensures ReferenceOk(cfg, front[..k], front[k])
    {
      assert ReferenceOk(cfg, h[..k], h[k]);
      assert front[..k] == h[..k];
    }
  }

  lemma MulMonotone(m: nat, a: nat, b: nat)
    requires a <= b
    ensures m * a <= m * b
  {}

  lemma {:induction false} AdmissibleWindow(cfg: Config, h: seq<real>, i: nat, x: real)
    requires i < |cfg.windows| && Admissible(cfg, h)
    ensures var w := cfg.windows[i]; var n := CountIn(h, x, x + w.seconds);
            n > 0 ==> Mult(cfg.windows, 0, w.seconds) * (n - 1) + 1 <= w.limit
  {
    if h != [] {
      var front, last := h[..|h| - 1], h[|h| - 1];
      var w := cfg.windows[i];
      AdmissibleFront(cfg, h);
      AdmissibleWindow(cfg, front, i, x);
      if x < last <= x + w.seconds {
        assert WindowRoom(cfg, front, last, i);
        CountInAfter(front, x, x + w.seconds, last - w.seconds);
        MulMonotone(Mult(cfg.windows, 0, w.seconds), CountIn(front, x, x + w.seconds),
                    |After(front, last - w.seconds)|);
      }
    }
  }

  lemma AtLeast(m: nat, n: nat)
    requires m > 0
    ensures m * n >= n
  {}

  /** At most `limit` accepted calls lie in any interval (x, x + seconds], for every window of the limiter at once. */
  lemma WindowBound(cfg: Config, ts: seq<real>, i: nat, x: real)
    requires cfg.NeverDrains() && Sorted(ts) && i < |cfg.windows|
    ensures |Run(cfg, INITIAL, ts).1| == |ts|
    ensures var w := cfg.windows[i]; var n := CountIn(Granted(ts, Run(cfg, INITIAL, ts).1), x, x + w.seconds);
            n == 0 || n <= w.limit
  {
    GrantedAdmissible(cfg, ts);
    var h := Granted(ts, Run(cfg, INITIAL, ts).1);
    AdmissibleWindow(cfg, h, i, x);
    MultPositive(cfg.windows, 0, i);
    var n := CountIn(h, x, x + cfg.windows[i].seconds);
    if n > 0 {
      AtLeast(Mult(cfg.windows, 0, cfg.windows[i].seconds), n - 1);
    }
  }

  lemma {:induction false} CountWithinEmpty(h: seq<real>, lo: real, hi: real)
    requires forall k | 0 <= k < |h| :: h[k] < lo
    ensures CountWithin(h, lo, hi) == 0
  {
    if h != [] {
      CountWithinEmpty(h[..|h| - 1], lo, hi);
    }
  }

  lemma ProductNonNegative(a: real, b: real)
    requires a >= 0.0 && b >= 0.0
    ensures a * b >= 0.0
  {}

  /** One more call taken at v moves the bound from v on to t. */
  lemma TakeOne(cap: real, rate: real, n: real, left: real, a: real, v: real, t: real)
    requires rate >= 0.0 && a <= v <= t && n + left <= cap + rate * (v - a)
    ensures n + 1.0 + Refill(cap, rate, left - 1.0, t - v) <= cap + rate * (t - a)
    ensures rate * (v - a) <= rate * (t - a)
  {
    assert rate * (v - a) + (t - v) * rate == rate * (t - a);
    ProductNonNegative(t - v, rate);
  }

  /** The most that [a, t] can have taken, what is left at t included. */
  function Budget(cfg: Config, a: real, t: real): real
    requires cfg.HasBucket()
  {
    cfg.capacity.value + cfg.rate.value * (t - a)
  }

  lemma BudgetGrows(cfg: Config, a: real, v: real, t: real)
    requires cfg.HasBucket() && cfg.NeverDrains() && a <= v <= t
    ensures cfg.capacity.value <= Budget(cfg, a, v) <= Budget(cfg, a, t)
  {
    TakeOne(cfg.capacity.value, cfg.rate.value, 0.0, cfg.capacity.value + cfg.rate.value * (v - a), a, v, t);
    ProductNonNegative(cfg.rate.value, v - a);
  }

  lemma TakeOneBudget(cfg: Config, n: real, left: real, a: real, v: real, t: real)
    requires cfg.HasBucket() && cfg.NeverDrains() && a <= v <= t && n + left <= Budget(cfg, a, v)
    ensures n + 1.0 + Refill(cfg.capacity.value, cfg.rate.value, left - 1.0, t - v) <= Budget(cfg, a, t)
  {
    TakeOne(cfg.capacity.value, cfg.rate.value, n, left, a, v, t);
  }

  lemma LevelAfterTake(cfg: Config, h: seq<real>, n: real, left: real, a: real, t: real)
    requires cfg.HasBucket() && cfg.NeverDrains() && h != [] && a <= h[|h| - 1] <= t
    requires left == Level(cfg, h[..|h| - 1], h[|h| - 1]) && n + left <= Budget(cfg, a, h[|h| - 1])
    ensures n + 1.0 + Level(cfg, h, t) <= Budget(cfg, a, t)
  {
    hide Budget;
    hide Refill;
    var level := Level(cfg, h, t);
    assert level == Refill(cfg.capacity.value, cfg.rate.value, left - 1.0, t - h[|h| - 1]);
    TakeOneBudget(cfg, n, left, a, h[|h| - 1], t);
  }

  lemma LevelAtMostFull(cfg: Config, h: seq<real>, t: real)
    requires cfg.HasBucket()
    ensures Level(cfg, h, t) <= cfg.capacity.value
  {}

  /** What was taken since a, plus what is left at t, never exceeds one full bucket plus the refill since a. */
  lemma {:induction false} TakenPlusLeft(cfg: Config, h: seq<real>, a: real, t: real)
    requires cfg.HasBucket() && cfg.NeverDrains() && Sorted(h) && a <= t && (forall k | 0 <= k < |h| :: h[k] <= t)
    ensures CountWithin(h, a, t) as real + Level(cfg, h, t) <= Budget(cfg, a, t)
    decreases |h|
  {
    if h != [] && a <= h[|h| - 1] {
      var front, last := h[..|h| - 1], h[|h| - 1];
      TakenPlusLeft(cfg, front, a, last);
      CountWithinTop(front, a, last, t);
      LevelAfterTake(cfg, h, CountWithin(front, a, last) as real, Level(cfg, front, last), a, t);
    } else {
      CountWithinEmpty(h, a, t);
      BudgetGrows(cfg, a, a, t);
      LevelAtMostFull(cfg, h, t);
    }
  }

  lemma {:induction false} CountWithinTop(h: seq<real>, a: real, t: real, u: real)
    requires t <= u && (forall k | 0 <= k < |h| :: h[k] <= t)
    ensures CountWithin(h, a, u) == CountWithin(h, a, t)
  {
    if h != [] {
      CountWithinTop(h[..|h| - 1], a, t, u);
    }
  }

  lemma {:induction false} AdmissibleBucket(cfg: Config, h: seq<real>, a: real, b: real)
    requires cfg.HasBucket() && cfg.NeverDrains() && Sorted(h) && Admissible(cfg, h) && a <= b
    ensures CountWithin(h, a, b) == 0 || CountWithin(h, a, b) as real <= Budget(cfg, a, b)
  {
    if h != [] {
      var front, last := h[..|h| - 1], h[|h| - 1];
      AdmissibleFront(cfg, h);
      AdmissibleBucket(cfg, front, a, b);
      if a <= last <= b {
        TakenPlusLeft(cfg, front, a, last);
        CountWithinTop(front, a, last, b);
        BudgetGrows(cfg, a, last, b);
      }
    }
  }

  /** At most capacity + rate * (b - a) calls are accepted in [a, b]. */
  lemma BucketBound(cfg: Config, ts: seq<real>, a: real, b: real)
    requires cfg.HasBucket() && cfg.NeverDrains() && Sorted(ts) && a <= b
    ensures |Run(cfg, INITIAL, ts).1| == |ts|
    ensures var n := CountWithin(Granted(ts, Run(cfg, INITIAL, ts).1), a, b);
            n == 0 || n as real <= Budget(cfg, a, b)
  {
    GrantedAdmissible(cfg, ts);
    AdmissibleBucket(cfg, Granted(ts, Run(cfg, INITIAL, ts).1), a, b);
  }

  lemma RefillInRange(cap: real, rate: real, left: real, elapsed: real)
    requires 0.0 <= left <= cap && rate >= 0.0 && elapsed >= 0.0
    ensures 0.0 <= Refill(cap, rate, left, elapsed) <= cap
  {
    ProductNonNegative(elapsed, rate);
  }

  /** A stored token count, if there is one, is in range and not from the future. */
  predicate TokensSane(cfg: Config, st: State, now: real)
    requires cfg.HasBucket()
  {
    st.tokens.Some? ==> 0.0 <= st.tokens.value <= cfg.capacity.value && st.at <= now
  }

  lemma StepTokens(cfg: Config, st: State, now: real, t: real)
    requires cfg.HasBucket() && cfg.NeverDrains() && cfg.capacity.value >= 0.0 && TokensSane(cfg, st, now) && now <= t
    ensures TokensSane(cfg, Step(cfg, st, t).0, t)
  {
    hide Refill;
    hide Admit;
    hide Record;
    if st.tokens.Some? {
      RefillInRange(cfg.capacity.value, cfg.rate.value, st.tokens.value, t - st.at);
    }
  }

  /** The stored token count stays between empty and full, whatever the answers were. */
  lemma {:induction false} TokensInRange(cfg: Config, st: State, now: real, ts: seq<real>)
    requires cfg.HasBucket() && cfg.NeverDrains() && cfg.capacity.value >= 0.0 && Sorted(ts) && NotBefore(ts, now)
    requires TokensSane(cfg, st, now)
    ensures var end := Run(cfg, st, ts).0; end.tokens.Some? ==> 0.0 <= end.tokens.value <= cfg.capacity.value
    decreases |ts|
  {
    if ts != [] {
      StepTokens(cfg, st, now, ts[0]);
      hide Step;
      TokensInRange(cfg, Step(cfg, st, ts[0]).0, ts[0], ts[1..]);
    }
  }

  /** Equal for every later call: the same queues once purged, the same bucket once refilled. */
  ghost predicate SameUpToPurgeAndRefill(cfg: Config, a: State, b: State, now: real) {
    forall t | now <= t :: SameAt(cfg, a, b, t)
  }

  ghost predicate SameAt(cfg: Config, a: State, b: State, t: real) {
    && (forall w | w in cfg.windows ::
          Purged(Queue(a.calls, w.seconds), t - w.seconds) == Purged(Queue(b.calls, w.seconds), t - w.seconds))
    && (cfg.HasBucket() ==> Refilled(cfg, a, t) == Refilled(cfg, b, t))
  }

  lemma SameHistorySameState(cfg: Config, h: seq<real>, a: State, b: State, now: real)
    requires Inv(cfg, h, a, now) && Inv(cfg, h, b, now)
    ensures SameUpToPurgeAndRefill(cfg, a, b, now)
  {
    forall t | now <= t
      ensures SameAt(cfg, a, b, t)
    {
      QueuesLater(cfg, h, a.calls, now, t);
      QueuesLater(cfg, h, b.calls, now, t);
      forall i | 0 <= i < |cfg.windows|
        ensures var s := cfg.windows[i].seconds; Purged(Queue(a.calls, s), t - s) == Purged(Queue(b.calls, s), t - s)
      {
        assert QueueExact(cfg, h, a.calls, t, i) && QueueExact(cfg, h, b.calls, t, i);
      }
      assert cfg.HasBucket() ==> Refilled(cfg, a, t) == Level(cfg, h, t);
    }
  }

  /** An admissible history, offered on its own, is accepted whole. */
  lemma {:induction false} AdmissibleAccepted(cfg: Config, h: seq<real>, ts: seq<real>)
    requires Admissible(cfg, h + ts)
    ensures |ReferenceAnswers(cfg, h, ts)| == |ts| && (forall k | 0 <= k < |ts| :: ReferenceAnswers(cfg, h, ts)[k])
    ensures ReferenceHistory(cfg, h, ts) == h + ts
    decreases |ts|
  {
    if ts == [] {
      assert h + ts == h;
    } else {
      assert ReferenceOk(cfg, (h + ts)[..|h|], (h + ts)[|h|]);
      assert (h + ts)[..|h|] == h;
      assert h + [ts[0]] + ts[1..] == h + ts;
      AdmissibleAccepted(cfg, h + [ts[0]], ts[1..]);
    }
  }

  lemma {:induction false} InvLater(cfg: Config, h: seq<real>, st: State, now: real, t: real)
    requires Inv(cfg, h, st, now) && now <= t
    ensures Inv(cfg, h, st, t)
  {
    QueuesLater(cfg, h, st.calls, now, t);
  }

  /**
  Refused calls are invisible: erase every refused call from a run, and each remaining call is still accepted,
  the final state is the same up to purging and refill, and every later call is answered the same way.
  */
  lemma RefusedInvisible(cfg: Config, ts: seq<real>, more: seq<real>)
    requires cfg.NeverDrains() && Sorted(ts) && Sorted(more) && NotBefore(more, End(ts))
    ensures |Run(cfg, INITIAL, ts).1| == |ts|
    ensures var (st, oks) := Run(cfg, INITIAL, ts);
            var (st', oks') := Run(cfg, INITIAL, Granted(ts, oks));
            && (forall k | 0 <= k < |oks'| :: oks'[k])
            && SameUpToPurgeAndRefill(cfg, st, st', End(ts))
            && Run(cfg, st, more).1 == Run(cfg, st', more).1
  {
    FaithfulRun(cfg, ts);
    GrantedIsHistory(cfg, [], ts);
    GrantedAdmissible(cfg, ts);
    var (st, oks) := Run(cfg, INITIAL, ts);
    var h := Granted(ts, oks);
    assert [] + h == h;
    FaithfulRun(cfg, h);
    AdmissibleAccepted(cfg, [], h);
    var (st', oks') := Run(cfg, INITIAL, h);
    if h == [] {
      StartsExact(cfg, End(ts));
    } else {
      InvLater(cfg, h, st', End(h), End(ts));
    }
    SameHistorySameState(cfg, h, st, st', End(ts));
    RunExact(cfg, h, st, End(ts), more);
    RunExact(cfg, h, st', End(ts), more);
  }
}
