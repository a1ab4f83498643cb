/** When a run does what, in seconds, and what a run costs whose symbols are all on the stream. */
module HubTimetable {
  import opened Wrappers
  import opened HubLimiter
  import opened HubLimiterInvariant
  import opened HubMarket
  import opened HubBudgets
  import opened HubReads

  // ---- the timetable ----

  function Instant(first: real, every: real, k: nat): real { first + k as real * every }

  /** The first instant of a timetable that lies after t. */
  ghost predicate NextAfter(next: real, first: real, every: real, t: real) {
    exists k: nat :: next == Instant(first, every, k) && t < next && (k == 0 || next - every <= t)
  }

  /** One of the instants lies in the twentieth of a second up to t. */
  ghost predicate Strikes(first: real, every: real, t: real) {
    exists k: nat :: t - 0.05 < Instant(first, every, k) <= t
  }

  ghost predicate OnTime(next: Schedule, t: real) {
    && NextAfter(next.chart, 0.0, 5.0, t) && NextAfter(next.watch, 0.0, 10.0, t)
    && NextAfter(next.chain, 0.0, 15.0, t) && NextAfter(next.worker, 0.0, 60.0, t)
    && NextAfter(next.copilot, 30.0, 300.0, t) && NextAfter(next.sample, 3.5, 7.0, t)
  }

  lemma Due(first: real, every: real, next: real, t: real)
    requires every >= 1.0 && NextAfter(next, first, every, t)
    ensures NextAfter(if t + 0.05 >= next then next + every else next, first, every, t + 0.05)
    ensures t + 0.05 >= next <==> Strikes(first, every, t + 0.05)
  {
    var k: nat :| next == Instant(first, every, k) && t < next && (k == 0 || next - every <= t);
    assert next + every == Instant(first, every, k + 1) by {
      assert (k + 1) as real * every == k as real * every + every;
    }
    forall j: nat | t < Instant(first, every, j)
      ensures next <= Instant(first, every, j)
    {
      Order(first, every, j, k, t);
    }
    hide Instant;
  }

  /** No instant of a timetable lies between t and the next one. */
  lemma Order(first: real, every: real, j: nat, k: nat, t: real)
    requires every >= 1.0 && (k == 0 || Instant(first, every, k) - every <= t)
    ensures t < Instant(first, every, j) ==> Instant(first, every, k) <= Instant(first, every, j)
  {
    if j >= k {
      Product((j - k) as real, every);
      assert j as real * every == k as real * every + (j - k) as real * every;
    } else {
      Product((k - 1 - j) as real, every);
      assert k as real * every == j as real * every + (k - 1 - j) as real * every + every;
    }
  }

  lemma Product(a: real, b: real)
    requires a >= 0.0 && b >= 0.0
    ensures a * b >= 0.0
  {}

  /** Before the first step everything lies ahead. */
  lemma FirstAhead(first: real, every: real)
    requires first >= 0.0
    ensures NextAfter(first, first, every, -0.05)
  {
    assert Instant(first, every, 0) == first;
  }

  /**
  After every step each task is due at the first instant of its own timetable still ahead: charts every five seconds,
  lists every ten, chains every fifteen, the worker every minute, the Copilot every five minutes from half a minute on,
  samples every seven seconds from three and a half on.
  */
  lemma {:induction false} Punctual(n: nat)
    ensures OnTime(NextDue(n), TimeOf(n) - 0.05)
  {
    TimesOfSteps(n);
    if n == 0 {
      FirstAhead(0.0, 5.0);
      FirstAhead(0.0, 10.0);
      FirstAhead(0.0, 15.0);
      FirstAhead(0.0, 60.0);
      FirstAhead(30.0, 300.0);
      FirstAhead(3.5, 7.0);
    } else {
      TimesOfSteps(n - 1);
      Punctual(n - 1);
      StepDue(NextDue(n - 1), TimeOf(n - 1) - 0.05);
      hide OnTime;
      hide Struck;
      hide Later;
      hide TimeOf;
    }
  }

  /** A timetable that is on time stays so, and its task is done at the first step not before its instant. */
  lemma StepDue(next: Schedule, t: real)
    requires OnTime(next, t)
    ensures OnTime(Later(next, t + 0.05), t + 0.05)
    ensures Struck(next, t + 0.05)
  {
    Due(0.0, 5.0, next.chart, t);
    Due(0.0, 10.0, next.watch, t);
    Due(0.0, 15.0, next.chain, t);
    Due(0.0, 60.0, next.worker, t);
    Due(30.0, 300.0, next.copilot, t);
    Due(3.5, 7.0, next.sample, t);
    hide NextAfter;
    hide Strikes;
  }

  ghost predicate Struck(next: Schedule, t: real) {
    && (t >= next.chart <==> Strikes(0.0, 5.0, t)) && (t >= next.watch <==> Strikes(0.0, 10.0, t))
    && (t >= next.chain <==> Strikes(0.0, 15.0, t)) && (t >= next.worker <==> Strikes(0.0, 60.0, t))
    && (t >= next.copilot <==> Strikes(30.0, 300.0, t)) && (t >= next.sample <==> Strikes(3.5, 7.0, t))
  }

  /** Each task is done once for every instant of its timetable, at the first step not before that instant. */
  lemma DoneAt(n: nat)
    ensures TimeOf(n) == n as real * 0.05 && Struck(NextDue(n), n as real * 0.05)
  {
    Punctual(n);
    StepDue(NextDue(n), TimeOf(n) - 0.05);
    hide Struck;
    hide OnTime;
    hide NextDue;
    hide Later;
  }

  /** A run looks at every twentieth of a second up to its length; just under zero still looks once. */
  lemma StepsAre(seconds: real)
    ensures seconds >= 0.0 ==> (Steps(seconds) - 1) as real * 0.05 <= seconds < Steps(seconds) as real * 0.05
    ensures seconds < 0.0 ==> Steps(seconds) == if seconds > -0.05 then 1 else 0
  {
    var whole := (seconds / 0.05).Floor;
    assert whole as real <= seconds / 0.05 < (whole + 1) as real;
    assert seconds / 0.05 * 0.05 == seconds;
  }

  // ---- what is kept of an answer ----

  /** A served poll keeps the price of now for four seconds, an unserved one nothing; no other quote changes. */
  lemma LtpKeeps(d: Desk, v: View, s: string, t: real, consumer: string)
    ensures var after := LtpView(d, v, s, t, consumer);
            && after.kept.chain == v.kept.chain && after.samples == v.samples && after.agree == v.agree
            && after.kept.quotes == if after.books.broker == v.books.broker then v.kept.quotes
                                    else v.kept.quotes[s := Quote(PriceOf(d.walk, s, t), t, 4.0)]
  {
    hide PriceOf;
    hide Allows;
    hide ReferenceOk;
    LongerIsOther(v.books.broker, t);
  }

  /** A served list keeps the price of now of every symbol it had to ask for, for eight seconds. */
  lemma QuotesKeep(d: Desk, v: View, symbols: seq<string>, t: real, s: string)
    ensures var before, after := v.kept.quotes, QuotesView(d, v, symbols, t).kept.quotes;
            if s in symbols && !OnStream(d, s) && !Young(before, s, t)
               && QuotesView(d, v, symbols, t).books.broker != v.books.broker
            then s in after && after[s] == Quote(PriceOf(d.walk, s, t), t, 8.0)
            else (s in after <==> s in before) && (s in before ==> after[s] == before[s])
    ensures QuotesView(d, v, symbols, t).kept.chain == v.kept.chain
  {
    hide PriceOf;
    hide Allows;
    hide ReferenceOk;
    LongerIsOther(v.books.broker, t);
    var missing := Missing(d.walk, d.streamed, d.mode, v.kept.quotes, symbols, t);
    assert s in missing <==> s in symbols && !OnStream(d, s) && !Young(v.kept.quotes, s, t);
  }

  lemma LongerIsOther(h: seq<real>, t: real)
    ensures h + [t] != h
  {
    assert |h + [t]| != |h|;
  }

  // ---- a run whose symbols are all on the stream ----

  /** Nothing asked through the worker, nothing cached, and no call but the chain's and the Copilot's. */
  ghost predicate Spared(v: View, w: View) {
    && w.kept.quotes == v.kept.quotes && w.books.worker == v.books.worker
    && w.books.c.worker == v.books.c.worker && w.books.c.refusedWorker == v.books.c.refusedWorker
    && forall consumer: string | consumer != "option chain" && consumer != "copilot" ::
         Of(w.books.c.byConsumer, consumer) == Of(v.books.c.byConsumer, consumer)
  }

  ghost predicate AllStreamed(d: Desk) { forall s | s in SYMBOLS :: OnStream(d, s) }

  lemma ReadsAreFree(d: Desk, v: View, t: real, consumer: string)
    requires AllStreamed(d)
    ensures LtpView(d, v, NIFTY, t, consumer) == v && LtpView(d, v, FUTURE, t, consumer) == v
    ensures QuotesView(d, v, Watchlist(), t) == v && CycleView(d, v, [NIFTY] + POSITIONS, t) == v
  {
    SymbolsKnown();
    hide SYMBOLS;
    hide PriceOf;
    hide Charge;
    hide Served;
    hide Watchlist;
    assert Missing(d.walk, d.streamed, d.mode, v.kept.quotes, Watchlist(), t) == {};
    var names := [NIFTY] + POSITIONS;
    assert forall s | s in names :: OnStream(d, s);
    CycleIsFree(d, v, names, t);
  }

  lemma {:induction false} CycleIsFree(d: Desk, v: View, names: seq<string>, t: real)
    requires forall s | s in names :: OnStream(d, s)
    ensures CycleView(d, v, names, t) == v
  {
    hide Charge;
    hide PriceOf;
    if names != [] {
      assert forall s | s in names[..|names| - 1] :: s in names;
      CycleIsFree(d, v, names[..|names| - 1], t);
      assert names[|names| - 1] in names;
    }
  }

  lemma CallSpares(d: Desk, v: View, t: real, consumer: string)
    requires consumer == "option chain" || consumer == "copilot"
    ensures Spared(v, CallView(d, v, consumer, Side.Api, t)) && Spared(v, ChainView(d, v, t, consumer))
  {
    hide PriceOf;
    hide Allows;
    hide ReferenceOk;
    hide Served;
  }

  lemma SparedOn(u: View, v: View, w: View)
    requires Spared(u, v) && Spared(v, w)
    ensures Spared(u, w)
  {}

  lemma StepSpares(d: Desk, v: View, next: Schedule, t: real)
    requires AllStreamed(d)
    ensures Spared(v, DueView(d, v, next, t))
  {
    hide AllStreamed;
    hide LtpView;
    hide QuotesView;
    hide CycleView;
    hide CallView;
    hide ChainView;
    hide Spread;
    ReadsAreFree(d, v, t, "chart");
    var listed := WatchView(d, ChartView(d, v, next, t), next, t);
    assert listed == v;
    var paged := PagesView(d, v, next, t);
    ReadsAreFree(d, ChainView(d, v, t, "option chain"), t, "option chain");
    CallSpares(d, v, t, "option chain");
    assert paged == if t >= next.chain then ChainView(d, v, t, "option chain") else v;
    ReadsAreFree(d, paged, t, "chart");
    assert WorkerView(d, paged, next, t) == paged;
    var called := CallView(d, paged, "copilot", Side.Api, t);
    CallSpares(d, paged, t, "copilot");
    CallSpares(d, called, t, "copilot");
    SparedOn(paged, called, ChainView(d, called, t, "copilot"));
    SparedOn(v, paged, CopilotView(d, paged, next, t));
  }

  /**
  With every symbol of the pages and the engine on the stream a run, however long, makes no chart, list or engine call:
  it costs the chains and the Copilot's own questions.
  */
  lemma {:induction false} StreamedRun(d: Desk, v: View, n: nat)
    requires AllStreamed(d)
    ensures Spared(v, RunView(d, v, n))
  {
    RunNext(d, v, 0);
    hide AllStreamed;
    hide DueView;
    hide NextDue;
    hide TimeOf;
    hide RunView;
    if n > 0 {
      RunNext(d, v, n - 1);
      StreamedRun(d, v, n - 1);
      StepSpares(d, RunView(d, v, n - 1), NextDue(n - 1), TimeOf(n - 1));
      SparedOn(v, RunView(d, v, n - 1), RunView(d, v, n));
    }
  }

  // ---- the hub never asks for more ----

  /** What the chains and the Copilot ask at a step when nothing is shared. */
  function Unshared(next: Schedule, t: real): nat {
    (if t >= next.chain then 1 else 0) + if t >= next.copilot then 2 else 0
  }

  lemma AsksStreamed(d: Desk, v: View, next: Schedule, t: real)
    requires AllStreamed(d)
    ensures DueView(d, v, next, t).books.attempts <= v.books.attempts + Unshared(next, t)
  {
    hide AllStreamed;
    hide LtpView;
    hide QuotesView;
    hide CycleView;
    hide CallView;
    hide ChainView;
    hide Spread;
    ReadsAreFree(d, v, t, "chart");
    assert WatchView(d, ChartView(d, v, next, t), next, t) == v;
    ChainAsks(d, v, t, "option chain");
    ReadsAreFree(d, ChainView(d, v, t, "option chain"), t, "option chain");
    var paged := PagesView(d, v, next, t);
    ReadsAreFree(d, paged, t, "chart");
    assert WorkerView(d, paged, next, t) == paged;
    CallAsks(d, paged, "copilot", Side.Api, t);
    ChainAsks(d, CallView(d, paged, "copilot", Side.Api, t), t, "copilot");
  }

  lemma {:induction false} CycleAsks(d: Desk, v: View, names: seq<string>, t: real)
    ensures CycleView(d, v, names, t).books.attempts >= v.books.attempts
  {
    hide EngineView;
    if names != [] {
      CycleAsks(d, v, names[..|names| - 1], t);
      EngineAsks(d, CycleView(d, v, names[..|names| - 1], t), names[|names| - 1], t);
    }
  }

  lemma AsksAlone(d: Desk, v: View, next: Schedule, t: real)
    requires d.mode == HubOff
    ensures DueView(d, v, next, t).books.attempts >= v.books.attempts + Unshared(next, t)
  {
    hide LtpView;
    hide QuotesView;
    hide CycleView;
    hide CallView;
    hide ChainView;
    hide Spread;
    hide OnStream;
    hide Young;
    hide Watchlist;
    LtpAsks(d, v, NIFTY, t, "chart");
    var charted := ChartView(d, v, next, t);
    QuotesAsk(d, charted, Watchlist(), t);
    var listed := WatchView(d, charted, next, t);
    ChainAsks(d, listed, t, "option chain");
    LtpAsks(d, ChainView(d, listed, t, "option chain"), FUTURE, t, "option chain");
    var paged := PagesView(d, v, next, t);
    CycleAsks(d, paged, [NIFTY] + POSITIONS, t);
    var worked := WorkerView(d, paged, next, t);
    CallAsks(d, worked, "copilot", Side.Api, t);
    ChainAsks(d, CallView(d, worked, "copilot", Side.Api, t), t, "copilot");
  }

  lemma RunAsks(on: Desk, off: Desk, v: View, w: View, n: nat)
    requires AllStreamed(on) && off.mode == HubOff
    ensures RunView(on, v, n + 1).books.attempts
            <= RunView(on, v, n).books.attempts + Unshared(NextDue(n), TimeOf(n))
    ensures RunView(off, w, n + 1).books.attempts
            >= RunView(off, w, n).books.attempts + Unshared(NextDue(n), TimeOf(n))
  {
    hide *;
    RunNext(on, v, n);
    RunNext(off, w, n);
    AsksStreamed(on, RunView(on, v, n), NextDue(n), TimeOf(n));
    AsksAlone(off, RunView(off, w, n), NextDue(n), TimeOf(n));
  }

  /**
  The same run with the hub streaming every symbol never asks the broker for more than without it, refused calls
  included: whatever the shares, the prices and the kept answers of the two.
  */
  lemma {:induction false} HubAsksNoMore(on: Desk, off: Desk, v: View, w: View, n: nat)
    requires AllStreamed(on) && off.mode == HubOff
    ensures RunView(on, v, n).books.attempts - v.books.attempts <= RunView(off, w, n).books.attempts - w.books.attempts
  {
    hide *;
    RunNext(on, v, 0);
    RunNext(off, w, 0);
    if n > 0 {
      HubAsksNoMore(on, off, v, w, n - 1);
      RunAsks(on, off, v, w, n - 1);
    }
  }
}
