/**
The two budgets in front of one broker connection, and the books the simulator keeps of its calls.  `Charge` is one
call: the side's own budget first, then the broker's published limits, each answered from its full history of accepted
calls.
*/
module HubBudgets {
  import opened Wrappers
  import opened HubLimiter
  import opened HubLimiterInvariant
  import opened HubLimiterBounds

  datatype Side = Api | Worker

  /** What `api_limits` and `limits_for` hand over for one broker. */
  datatype Shares = Shares(apiPerSecond: int, apiCapacity: int, apiPerMinute: int, apiPer30Min: Option<int>,
                           workerPerSecond: real, workerBurst: int, workerPerMinute: int) {
    function Api(): Config {
      Config([Window(60.0, apiPerMinute)]
             + (if apiPer30Min.Some? && apiPer30Min.value != 0 then [Window(1800.0, apiPer30Min.value)] else []),
             Some(apiPerSecond as real), Some(apiCapacity as real))
    }

    function Worker(): Config {
      Config([Window(60.0, workerPerMinute)], Some(workerPerSecond), Some(workerBurst as real))
    }

    function Of(side: Side): Config { if side == Side.Api then Api() else Worker() }

    predicate Sound() { apiPerSecond >= 0 && workerPerSecond >= 0.0 }

    /** The two shares and the worker's own demand stay inside the published limits. */
    predicate Fit() {
      && Sound() && apiCapacity >= 0 && workerBurst >= 0 && apiPerMinute >= 0 && workerPerMinute >= 0
      && apiCapacity as real + apiPerSecond as real + workerBurst as real + workerPerSecond <= 50.0
      && apiPerMinute + workerPerMinute <= 500
      && apiPer30Min.Some? && apiPer30Min.value > 0 && apiPer30Min.value + DEMAND <= 2000
    }

    /** The worker's own share covers a cycle and is full again before the next. */
    predicate CoversCycle() {
      && Fit() && workerBurst >= PER_CYCLE && FillsInCycle(workerBurst as real, workerPerSecond)
      && workerPerMinute > 2 * PER_CYCLE
    }
  }

  /** The broker's published limits per second, per minute and per 30 minutes. */
  const PUBLISHED := Config([Window(1.0, 50), Window(60.0, 500), Window(1800.0, 2000)], None, None)

  /** The shares the repository sets for the probe's broker. */
  const UPSTOX := Shares(6, 6, 75, Some(500), 12.0, 12, 150)

  lemma UpstoxFits()
    ensures UPSTOX.Fit() && UPSTOX.CoversCycle()
  {}

  // ---- the books ----

  datatype Counters = Counters(api: nat, worker: nat, refusedApi: nat, refusedWorker: nat, broker429: nat,
                               byConsumer: map<string, nat>)

  const NO_CALLS := Counters(0, 0, 0, 0, 0, map[])

  function Of(byConsumer: map<string, nat>, consumer: string): nat {
    if consumer in byConsumer then byConsumer[consumer] else 0
  }

  /** The counters, every call ever attempted, and the times of the calls each limiter accepted. */
  datatype Books = Books(c: Counters, attempts: nat, api: seq<real>, worker: seq<real>, broker: seq<real>) {
    function Calls(side: Side): seq<real> { if side == Side.Api then api else worker }
  }

  predicate Allows(shares: Shares, b: Books, side: Side, t: real) {
    ReferenceOk(shares.Of(side), b.Calls(side), t)
  }

  predicate Served(shares: Shares, b: Books, side: Side, t: real) {
    Allows(shares, b, side, t) && ReferenceOk(PUBLISHED, b.broker, t)
  }

  function Counted(c: Counters, consumer: string, side: Side, granted: bool, served: bool): Counters {
    if !granted then
      if side == Side.Api then c.(refusedApi := c.refusedApi + 1) else c.(refusedWorker := c.refusedWorker + 1)
    else if !served then c.(broker429 := c.broker429 + 1)
    else
      var d := if side == Side.Api then c.(api := c.api + 1) else c.(worker := c.worker + 1);
      d.(byConsumer := c.byConsumer[consumer := Of(c.byConsumer, consumer) + 1])
  }

  function Extended(h: seq<real>, more: bool, t: real): seq<real> { if more then h + [t] else h }

  function Charge(shares: Shares, b: Books, consumer: string, side: Side, t: real): Books {
    var granted, served := Allows(shares, b, side, t), Served(shares, b, side, t);
    Books(Counted(b.c, consumer, side, granted, served), b.attempts + 1,
          Extended(b.api, granted && side == Side.Api, t), Extended(b.worker, granted && side == Side.Worker, t),
          Extended(b.broker, served, t))
  }

  // ---- conservation ----

  ghost function Total(m: map<string, nat>): nat
    decreases m.Keys
  {
    if m.Keys == {} then 0
    else
      var k :| k in m.Keys;
      m[k] + Total(m - {k})
  }

  lemma {:induction false} TotalWithout(m: map<string, nat>, k: string)
    requires k in m
    ensures Total(m) == m[k] + Total(m - {k})
    decreases m.Keys
  {
    var first :| first in m.Keys && Total(m) == m[first] + Total(m - {first});
    if first != k {
      TotalWithout(m - {first}, k);
      TotalWithout(m - {k}, first);
      assert m - {first} - {k} == m - {k} - {first};
    }
  }

  lemma TotalCounted(m: map<string, nat>, k: string)
    ensures Total(m[k := Of(m, k) + 1]) == Total(m) + 1
  {
    TotalWithout(m[k := Of(m, k) + 1], k);
    if k in m {
      TotalWithout(m, k);
      assert m[k := Of(m, k) + 1] - {k} == m - {k};
    } else {
      assert m[k := Of(m, k) + 1] - {k} == m;
    }
  }

  /** Whatever the broker served after any instant, the two budgets had granted after it. */
  ghost predicate Covered(b: Books) {
    forall x: real :: |After(b.broker, x)| <= |After(b.api, x)| + |After(b.worker, x)|
  }

  ghost predicate Balanced(b: Books) {
    && b.attempts == b.c.api + b.c.worker + b.c.refusedApi + b.c.refusedWorker + b.c.broker429
    && Total(b.c.byConsumer) == b.c.api + b.c.worker == |b.broker|
    && |b.api| + |b.worker| == b.c.api + b.c.worker + b.c.broker429
    && Covered(b)
  }

  lemma AfterOneMore(h: seq<real>, t: real, x: real)
    ensures After(h + [t], x) == if t > x then After(h, x) + [t] else After(h, x)
  {
    assert (h + [t])[..|h|] == h;
  }

  lemma ChargeCovered(shares: Shares, b: Books, consumer: string, side: Side, t: real)
    requires Covered(b)
    ensures Covered(Charge(shares, b, consumer, side, t))
  {
    hide ReferenceOk;
    var a := Charge(shares, b, consumer, side, t);
    forall x: real
      ensures |After(a.broker, x)| <= |After(a.api, x)| + |After(a.worker, x)|
    {
      AfterOneMore(b.api, t, x);
      AfterOneMore(b.worker, t, x);
      AfterOneMore(b.broker, t, x);
    }
  }

  /** Every attempt is counted exactly once, and the three counts of what was served agree. */
  lemma ChargeBalanced(shares: Shares, b: Books, consumer: string, side: Side, t: real)
    requires Balanced(b)
    ensures Balanced(Charge(shares, b, consumer, side, t))
  {
    ChargeCovered(shares, b, consumer, side, t);
    TotalCounted(b.c.byConsumer, consumer);
    hide ReferenceOk;
    hide Covered;
    hide Total;
  }

  // ---- the broker never has to refuse ----

  /** Three reads a worker cycle and the stream's one authorise call, over one 30-minute window. */
  const PER_CYCLE := 4
  const CYCLE := 59.95
  const DEMAND := 124

  ghost predicate Paced(h: seq<real>) {
    forall k | 0 <= k < |h| - PER_CYCLE :: h[k + PER_CYCLE] >= h[k] + CYCLE
  }

  lemma {:induction false} PacedSteps(h: seq<real>, k: nat, q: nat)
    requires Paced(h) && k + q * PER_CYCLE < |h|
    ensures h[k + q * PER_CYCLE] >= h[k] + q as real * CYCLE
    decreases q
  {
    if q > 0 {
      PacedSteps(h, k, q - 1);
      assert h[(k + (q - 1) * PER_CYCLE) + PER_CYCLE] >= h[k + (q - 1) * PER_CYCLE] + CYCLE;
    }
  }

  lemma {:induction false} AfterIsSuffix(h: seq<real>, c: real)
    requires Sorted(h)
    ensures |After(h, c)| <= |h| && forall k | |h| - |After(h, c)| <= k < |h| :: h[k] > c
  {
    if h != [] {
      AfterIsSuffix(h[..|h| - 1], c);
      if h[|h| - 1] <= c {
        NoneAfter(h, c);
      }
    }
  }

  lemma PacedDemand(h: seq<real>, t: real)
    requires Sorted(h) && Paced(h) && forall k | 0 <= k < |h| :: h[k] <= t
    ensures |After(h, t - 1800.0)| <= DEMAND
  {
    var n := |After(h, t - 1800.0)|;
    AfterIsSuffix(h, t - 1800.0);
    if n > DEMAND {
      PacedSteps(h, |h| - n, 31);
    }
  }

  lemma {:induction false} AfterIsCount(h: seq<real>, c: real, t: real)
    requires forall k | 0 <= k < |h| :: h[k] <= t
    ensures |After(h, c)| == CountIn(h, c, t) <= CountWithin(h, c, t)
  {
    if h != [] {
      AfterIsCount(h[..|h| - 1], c, t);
    }
  }

  /** A limiter's accepted calls: in order, none later than t, each allowed by those before it. */
  ghost predicate Grown(cfg: Config, h: seq<real>, t: real) {
    cfg.NeverDrains() && Sorted(h) && (forall k | 0 <= k < |h| :: h[k] <= t) && Admissible(cfg, h)
  }

  lemma HistoryGrows(cfg: Config, h: seq<real>, t: real)
    requires Grown(cfg, h, t)
    ensures Grown(cfg, Extended(h, ReferenceOk(cfg, h, t), t), t)
  {
    var more := Extended(h, ReferenceOk(cfg, h, t), t);
    forall k | 0 <= k < |more|
      ensures ReferenceOk(cfg, more[..k], more[k])
    {
      assert more[..k] == h[..k];
    }
  }

  lemma LastSecond(cfg: Config, h: seq<real>, t: real)
    requires Grown(cfg, h, t) && cfg.HasBucket() && cfg.capacity.value >= 0.0
    ensures |After(h, t - 1.0)| as real <= cfg.capacity.value + cfg.rate.value
  {
    AfterIsCount(h, t - 1.0, t);
    AdmissibleBucket(cfg, h, t - 1.0, t);
    assert cfg.rate.value * (t - (t - 1.0)) == cfg.rate.value;
  }

  lemma LastWindow(cfg: Config, h: seq<real>, t: real, i: nat)
    requires Grown(cfg, h, t) && i < |cfg.windows| && cfg.windows[i].limit >= 0
    ensures |After(h, t - cfg.windows[i].seconds)| <= cfg.windows[i].limit
  {
    var s := cfg.windows[i].seconds;
    AfterIsCount(h, t - s, t);
    AdmissibleWindow(cfg, h, i, t - s);
    MultPositive(cfg.windows, 0, i);
    if CountIn(h, t - s, t) > 0 {
      AtLeast(Mult(cfg.windows, 0, s), CountIn(h, t - s, t) - 1);
      assert t - s + s == t;
    }
  }

  lemma PublishedRoom(h: seq<real>, t: real)
    requires |After(h, t - 1.0)| < 50 && |After(h, t - 60.0)| < 500 && |After(h, t - 1800.0)| < 2000
    ensures ReferenceOk(PUBLISHED, h, t)
  {
    var ws := PUBLISHED.windows;
    assert Mult(ws, 3, 1.0) == Mult(ws, 3, 60.0) == Mult(ws, 3, 1800.0) == 0;
    assert Mult(ws, 2, 1.0) == Mult(ws, 2, 60.0) == 0 && Mult(ws, 2, 1800.0) == 1;
    assert Mult(ws, 1, 1.0) == 0 && Mult(ws, 1, 60.0) == Mult(ws, 1, 1800.0) == 1;
    assert Mult(ws, 0, 1.0) == Mult(ws, 0, 60.0) == Mult(ws, 0, 1800.0) == 1;
    assert WindowRoom(PUBLISHED, h, t, 0) && WindowRoom(PUBLISHED, h, t, 1) && WindowRoom(PUBLISHED, h, t, 2);
  }

  /** With shares that fit and a paced worker, a call its own budget grants is never refused by the broker. */
  lemma GrantedIsServed(shares: Shares, b: Books, side: Side, t: real)
    requires shares.Fit() && Covered(b) && Allows(shares, b, side, t)
    requires Grown(shares.Api(), b.api, t) && Grown(shares.Worker(), b.worker, t)
    requires Paced(Extended(b.worker, side == Side.Worker, t))
    ensures Served(shares, b, side, t)
  {
    var api, worker := Extended(b.api, side == Side.Api, t), Extended(b.worker, side == Side.Worker, t);
    HistoryGrows(shares.Of(side), b.Calls(side), t);
    assert Grown(shares.Api(), api, t) && Grown(shares.Worker(), worker, t);
    LastSecond(shares.Api(), api, t);
    LastSecond(shares.Worker(), worker, t);
    LastWindow(shares.Api(), api, t, 0);
    LastWindow(shares.Api(), api, t, 1);
    LastWindow(shares.Worker(), worker, t, 0);
    PacedDemand(worker, t);
    forall x: real | x < t
      ensures |After(b.broker, x)| + 1 <= |After(api, x)| + |After(worker, x)|
    {
      AfterOneMore(b.api, t, x);
      AfterOneMore(b.worker, t, x);
    }
    PublishedRoom(b.broker, t);
  }

  // ---- the worker is never refused its price ----

  /** The worker's last cycle was long enough before `next`. */
  ghost predicate Rested(h: seq<real>, next: real) {
    |h| <= 1 || forall k | 0 <= k < |h| :: h[k] + CYCLE <= next
  }

  lemma {:induction false} AdmissibleLevel(cfg: Config, h: seq<real>)
    requires cfg.HasBucket() && Admissible(cfg, h) && h != []
    ensures Level(cfg, h[..|h| - 1], h[|h| - 1]) >= 1.0
  {
    AdmissibleFront(cfg, h);
  }

  predicate FillsInCycle(cap: real, rate: real) { rate * CYCLE >= cap }

  lemma RefillFills(cap: real, rate: real, left: real, d: real)
    requires left >= 0.0 && rate >= 0.0 && d >= CYCLE && FillsInCycle(cap, rate)
    ensures Refill(cap, rate, left, d) == cap
  {
    assert d * rate == (d - CYCLE) * rate + rate * CYCLE;
    ProductNonNegative(d - CYCLE, rate);
  }

  lemma RefillKeeps(cap: real, rate: real, left: real, d: real)
    requires left <= cap && rate >= 0.0 && d >= 0.0
    ensures Refill(cap, rate, left, d) >= left
  {
    ProductNonNegative(d, rate);
  }

  lemma LevelIs(cfg: Config, h: seq<real>, t: real)
    requires cfg.HasBucket() && h != []
    ensures Level(cfg, h, t)
            == Refill(cfg.capacity.value, cfg.rate.value, Level(cfg, h[..|h| - 1], h[|h| - 1]) - 1.0, t - h[|h| - 1])
    ensures |h| == 1 ==> Level(cfg, h[..|h| - 1], h[|h| - 1]) == cfg.capacity.value
  {
    hide Refill;
  }

  /** After a rest the bucket is full, but for the one call before the first cycle. */
  lemma RestedLevel(cfg: Config, h: seq<real>, t: real)
    requires cfg.HasBucket() && Grown(cfg, h, t) && Rested(h, t) && cfg.capacity.value >= 1.0
             && FillsInCycle(cfg.capacity.value, cfg.rate.value)
    ensures Level(cfg, h, t) >= cfg.capacity.value - 1.0
  {
    if h != [] {
      RestLevel(cfg, h, t);
    } else {
      hide Admissible;
    }
  }

  lemma RestLevel(cfg: Config, h: seq<real>, t: real)
    requires cfg.HasBucket() && Grown(cfg, h, t) && Rested(h, t) && cfg.capacity.value >= 1.0
             && FillsInCycle(cfg.capacity.value, cfg.rate.value) && h != []
    ensures Level(cfg, h, t) >= cfg.capacity.value - 1.0
  {
    hide Refill;
    hide Level;
    hide FillsInCycle;
    var last := h[|h| - 1];
    var left := Level(cfg, h[..|h| - 1], last) - 1.0;
    assert cfg.rate.value >= 0.0 && t >= last && (|h| == 1 || t - last >= CYCLE);
    AdmissibleLevel(cfg, h);
    LevelIs(cfg, h, t);
    hide Grown;
    hide Rested;
    if |h| == 1 {
      RefillKeeps(cfg.capacity.value, cfg.rate.value, left, t - last);
    } else {
      RefillFills(cfg.capacity.value, cfg.rate.value, left, t - last);
    }
  }

  lemma TakenNow(cfg: Config, h: seq<real>, t: real)
    requires cfg.HasBucket() && Level(cfg, h, t) <= cfg.capacity.value
    ensures Level(cfg, h + [t], t) == Level(cfg, h, t) - 1.0
  {
    hide Refill;
    hide Level;
    assert (h + [t])[..|h|] == h && t - t == 0.0;
    LevelIs(cfg, h + [t], t);
    RefillNone(cfg.capacity.value, cfg.rate.value, Level(cfg, h, t) - 1.0);
  }

  lemma RefillNone(cap: real, rate: real, left: real)
    requires left <= cap
    ensures Refill(cap, rate, left, 0.0) == left
  {
    assert 0.0 * rate == 0.0;
  }

  lemma LongPast(h: seq<real>, t: real, k: nat)
    requires Paced(h) && Rested(h, t) && k < |h| - PER_CYCLE
    ensures h[k] <= t - 60.0
  {
    assert h[k + PER_CYCLE] + CYCLE <= t;
  }

  lemma {:induction false} FewLate(h: seq<real>, c: real, m: nat)
    requires forall k | 0 <= k < |h| - m :: h[k] <= c
    ensures |After(h, c)| <= m
  {
    if m == 0 {
      NoneAfter(h, c);
    } else if h != [] {
      FewLate(h[..|h| - 1], c, m - 1);
    }
  }

  /** Few calls fall into the last minute of a rested, paced history. */
  lemma RestedMinute(h: seq<real>, t: real)
    requires Sorted(h) && Paced(h) && Rested(h, t)
    ensures |After(h, t - 60.0)| <= PER_CYCLE
  {
    forall k | 0 <= k < |h| - PER_CYCLE
      ensures h[k] <= t - 60.0
    {
      LongPast(h, t, k);
    }
    FewLate(h, t - 60.0, PER_CYCLE);
  }

  /** Within one instant the window's and the bucket's content change by the calls taken. */
  lemma TakenNowRoom(shares: Shares, before: seq<real>, j: nat, t: real)
    requires shares.Sound()
    requires Level(shares.Worker(), before, t) >= j as real
    ensures Level(shares.Worker(), before + Times(t, j), t) == Level(shares.Worker(), before, t) - j as real
    ensures |After(before + Times(t, j), t - 60.0)| == |After(before, t - 60.0)| + j
    decreases j
  {
    if j == 0 {
      assert before + Times(t, 0) == before;
    } else {
      TakenNowRoom(shares, before, j - 1, t);
      var h := before + Times(t, j - 1);
      assert before + Times(t, j) == h + [t];
      LevelAtMostFull(shares.Worker(), h, t);
      TakenNow(shares.Worker(), h, t);
      AfterOneMore(h, t, t - 60.0);
    }
  }

  /** Up to two calls into a cycle the worker's budget still grants the next. */
  lemma CycleGranted(shares: Shares, before: seq<real>, j: nat, t: real)
    requires shares.CoversCycle() && j <= 2 && Grown(shares.Worker(), before, t) && Paced(before) && Rested(before, t)
    ensures ReferenceOk(shares.Worker(), before + Times(t, j), t)
  {
    var h := before + Times(t, j);
    RestedLevel(shares.Worker(), before, t);
    RestedMinute(before, t);
    hide Grown;
    hide Paced;
    hide Rested;
    hide After;
    hide Level;
    hide ReferenceOk;
    TakenNowRoom(shares, before, j, t);
    WorkerRoom(shares, h, t);
  }

  lemma WorkerRoom(shares: Shares, h: seq<real>, t: real)
    requires |After(h, t - 60.0)| < shares.workerPerMinute && Level(shares.Worker(), h, t) >= 1.0
    ensures ReferenceOk(shares.Worker(), h, t)
  {
    hide After;
    hide Level;
    var ws := shares.Worker().windows;
    assert Mult(ws, 1, 60.0) == 0 && Mult(ws, 0, 60.0) == 1;
  }
}
