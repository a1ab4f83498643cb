/** What the simulator's readers answer and what each poll does to the books and the caches, as values. */
module HubReads {
  import opened Sequences
  import opened Wrappers
  import opened HubLimiter
  import opened HubLimiterInvariant
  import opened HubLimiterBounds
  import opened HubMarket
  import opened HubBudgets

  const STREAM_LATENCY := 0.2
  const QUOTE_CACHE_SECONDS := 4.0
  const BATCH_CACHE_SECONDS := 8.0
  const SAME_PRICE := 0.000000001

  const STEP := 0.05
  const CHART_POLL := 5.0
  const WATCHLIST_POLL := 10.0
  const CHAIN_POLL := 15.0
  const WORKER_CYCLE := 60.0
  const COPILOT_EVERY := 300.0
  const SAMPLE_EVERY := 7.0

  const NIFTY := "NIFTY"
  const FUTURE := "NIFTYFUT"
  const POSITIONS := ["LEG1", "LEG2"]

  function Watchlist(): seq<string> {
    [NIFTY] + seq(49, i requires 0 <= i < 49 => ['W', DigitOf(i / 10), DigitOf(i % 10)])
  }

  const SYMBOLS := Watchlist() + POSITIONS + [FUTURE, NIFTY]

  /** Each element once. */
  function Unique(s: seq<string>): (r: seq<string>)
    ensures Distinct(r) && forall x :: x in r <==> x in s
  {
    if s == [] then []
    else
      var rest := Unique(s[..|s| - 1]);
      if s[|s| - 1] in rest then rest else rest + [s[|s| - 1]]
  }

  lemma SymbolsKnown()
    ensures NIFTY in SYMBOLS && FUTURE in SYMBOLS && (forall s | s in POSITIONS :: s in SYMBOLS)
    ensures forall s | s in Watchlist() :: s in SYMBOLS
  {
    assert SYMBOLS[|SYMBOLS| - 1] == NIFTY && SYMBOLS[|SYMBOLS| - 2] == FUTURE;
    forall s | s in Watchlist() || s in POSITIONS
      ensures s in SYMBOLS
    {}
  }

  lemma NoMoveAtStart()
    ensures MoveAt(0.0) == 0
  {}

  lemma NothingPaced()
    ensures Paced([]) && Paced([0.0])
  {}

  lemma FirstGranted(shares: Shares)
    ensures shares.CoversCycle() ==> Allows(shares, NOTHING, Side.Worker, 0.0)
  {
    if shares.CoversCycle() {
      CycleGranted(shares, [], 0, 0.0);
      assert [] + Times(0.0, 0) == [];
    }
  }

  const NOTHING := Books(NO_CALLS, 0, [], [], [])

  lemma NothingBalanced()
    ensures Balanced(NOTHING)
  {}

  /** Is the hub off (the probe's "before") or on ("after")? */
  datatype Mode = HubOff | HubOn

  datatype Quote = Quote(value: real, stored: real, ttl: real)

  /** The prices kept aside: the credential's quotes, and the connection's option chain. */
  datatype Kept = Kept(quotes: map<string, Quote>, chain: Option<(real, real)>)

  /** A symbol's cached quote that is still good. */
  function Cached(quotes: map<string, Quote>, s: string, t: real): Option<real> {
    if s in quotes && t - quotes[s].stored <= quotes[s].ttl then Some(quotes[s].value) else None
  }

  function Tick(walk: Walk, streamed: set<string>, mode: Mode, s: string, t: real): Option<real> {
    if mode == HubOn && s in streamed then Some(PriceOf(walk, s, t - STREAM_LATENCY)) else None
  }

  /** What a page reads without asking the broker. */
  function Held(walk: Walk, streamed: set<string>, mode: Mode, quotes: map<string, Quote>, s: string,
                t: real)
    : Option<real>
  {
    var tick := Tick(walk, streamed, mode, s, t);
    if tick.Some? then tick else Cached(quotes, s, t)
  }

  /** Every kept price was the market's own when it was stored, and is kept for a known time. */
  ghost predicate KeptSound(walk: Walk, k: Kept, now: real) {
    && (forall s | s in k.quotes ::
          && k.quotes[s].value == PriceOf(walk, s, k.quotes[s].stored) && k.quotes[s].stored <= now
          && (k.quotes[s].ttl == QUOTE_CACHE_SECONDS || k.quotes[s].ttl == BATCH_CACHE_SECONDS))
    && (k.chain.Some? ==> k.chain.value.0 == PriceOf(walk, NIFTY, k.chain.value.1) && k.chain.value.1 <= now)
  }

  /** The price was the market's at some instant at most `age` before t. */
  ghost predicate FreshPrice(walk: Walk, s: string, value: real, t: real, age: real) {
    exists x :: t - age <= x <= t && value == PriceOf(walk, s, x)
  }

  /** A reader's answer: what is held, else the price at t if there is leave to ask for it. */
  function Reading(walk: Walk, streamed: set<string>, mode: Mode, quotes: map<string, Quote>, s: string, t: real,
                   leave: bool)
    : (r: Option<real>)
    ensures leave ==> r.Some?
  {
    var own := Held(walk, streamed, mode, quotes, s, t);
    if own.Some? then own else if leave then Some(PriceOf(walk, s, t)) else None
  }

  /**
  Every price a page gets was the market's own at most eight seconds ago; every price the engine gets, a fifth of a
  second.
  */
  lemma ReadingIsFresh(walk: Walk, streamed: set<string>, mode: Mode, k: Kept, s: string, t: real, leave: bool)
    requires KeptSound(walk, k, t)
    ensures var r := Reading(walk, streamed, mode, k.quotes, s, t, leave);
            r.Some? ==> FreshPrice(walk, s, r.value, t, BATCH_CACHE_SECONDS)
    ensures var e := Reading(walk, streamed, mode, map[], s, t, leave);
            e.Some? ==> FreshPrice(walk, s, e.value, t, STREAM_LATENCY)
  {
    hide PriceOf;
    assert PriceOf(walk, s, t) == PriceOf(walk, s, t);
    if Tick(walk, streamed, mode, s, t).Some? {
      assert Tick(walk, streamed, mode, s, t).value == PriceOf(walk, s, t - STREAM_LATENCY);
    } else if Cached(k.quotes, s, t).Some? {
      assert Cached(k.quotes, s, t).value == PriceOf(walk, s, k.quotes[s].stored);
    }
  }

  function Missing(walk: Walk, streamed: set<string>, mode: Mode, quotes: map<string, Quote>, symbols: seq<string>,
                   t: real)
    : set<string>
  {
    set s | s in symbols && Held(walk, streamed, mode, quotes, s, t).None?
  }

  /** The cache after one batch call. */
  function Batched(walk: Walk, quotes: map<string, Quote>, rest: set<string>, t: real): map<string, Quote> {
    quotes + map s | s in rest :: Quote(PriceOf(walk, s, t), t, BATCH_CACHE_SECONDS)
  }

  lemma BatchedNone(walk: Walk, quotes: map<string, Quote>, t: real)
    ensures Batched(walk, quotes, {}, t) == quotes
  {}

  lemma BatchedNext(walk: Walk, quotes: map<string, Quote>, rest: set<string>, s: string, t: real)
    ensures Batched(walk, quotes, rest, t)[s := Quote(PriceOf(walk, s, t), t, BATCH_CACHE_SECONDS)]
            == Batched(walk, quotes, rest + {s}, t)
  {
    hide PriceOf;
  }

  lemma BatchedSound(walk: Walk, k: Kept, rest: set<string>, now: real)
    requires KeptSound(walk, k, now)
    ensures KeptSound(walk, Kept(Batched(walk, k.quotes, rest, now), k.chain), now)
  {
    hide PriceOf;
  }

  function Elements(s: seq<string>): set<string> { set x | x in s }

  function Apart(a: real, b: real): real { if a >= b then a - b else b - a }

  function Present(values: seq<Option<real>>): seq<real> {
    if values == [] then []
    else (if values[0].Some? then [values[0].value] else []) + Present(values[1..])
  }

  function Most(values: seq<real>): real
    requires values != []
  {
    if |values| == 1 || values[0] >= Most(values[1..]) then values[0] else Most(values[1..])
  }

  function Least(values: seq<real>): real
    requires values != []
  {
    if |values| == 1 || values[0] <= Least(values[1..]) then values[0] else Least(values[1..])
  }

  lemma PresentMore(x: real, rest: seq<Option<real>>)
    ensures Present([Some(x)] + rest) == [x] + Present(rest)
  {
    assert ([Some(x)] + rest)[1..] == rest;
  }

  lemma MostMore(x: real, rest: seq<real>)
    requires rest != []
    ensures Most([x] + rest) == (if x >= Most(rest) then x else Most(rest))
    ensures Least([x] + rest) == if x <= Least(rest) then x else Least(rest)
  {
    assert ([x] + rest)[1..] == rest;
  }

  /** Two readers with one price each: the four answers, in order, and how far they lie apart. */
  lemma SpreadOfFour(p: real, e: real)
    ensures Present([Some(p), Some(p), Some(e), Some(e)]) == [p, p, e, e]
    ensures Most([p, p, e, e]) - Least([p, p, e, e]) == Apart(p, e)
  {
    FourPresent(p, e);
    hide Most;
    hide Least;
    FourMost(p, e);
  }

  lemma FourPresent(p: real, e: real)
    ensures Present([Some(p), Some(p), Some(e), Some(e)]) == [p, p, e, e]
  {
    var none: seq<Option<real>> := [];
    assert Present(none) == [];
    hide Present;
    PresentMore(e, none);
    assert [Some(e)] + none == [Some(e)];
    PresentMore(e, [Some(e)]);
    assert [Some(e)] + [Some(e)] == [Some(e), Some(e)];
    PresentMore(p, [Some(e), Some(e)]);
    assert [Some(p)] + [Some(e), Some(e)] == [Some(p), Some(e), Some(e)];
    PresentMore(p, [Some(p), Some(e), Some(e)]);
    assert [Some(p)] + [Some(p), Some(e), Some(e)] == [Some(p), Some(p), Some(e), Some(e)];
  }

  lemma FourMost(p: real, e: real)
    ensures Most([p, p, e, e]) == (if p >= e then p else e) && Least([p, p, e, e]) == if p <= e then p else e
  {
    assert Most([e]) == e && Least([e]) == e;
    hide Most;
    hide Least;
    MostMore(e, [e]);
    assert [e] + [e] == [e, e];
    MostMore(p, [e, e]);
    assert [p] + [e, e] == [p, e, e];
    MostMore(p, [p, e, e]);
    assert [p] + [p, e, e] == [p, p, e, e];
  }

  lemma MoveAtGrows(a: real, b: real)
    requires a <= b
    ensures MoveAt(a) <= MoveAt(b)
  {}

  /** When each task is due next. */
  datatype Schedule = Schedule(chart: real, watch: real, chain: real, worker: real, copilot: real, sample: real)

  lemma RestedLonger(h: seq<real>, a: real, b: real)
    requires Rested(h, a) && a <= b
    ensures Rested(h, b)
  {}

  lemma ShortPaced(h: seq<real>)
    requires |h| <= 1
    ensures Paced(h)
  {}

  /** At most two calls into a cycle, a third is still paced. */
  lemma PacedMore(before: seq<real>, calls: nat, t: real)
    requires Paced(before + Times(t, calls)) && calls <= 2 && Rested(before, t)
    ensures Paced(before + Times(t, calls) + [t])
  {
    TimesLength(t, calls);
    var h := before + Times(t, calls);
    forall k | 0 <= k < |h| + 1 - PER_CYCLE
      ensures (h + [t])[k + PER_CYCLE] >= (h + [t])[k] + CYCLE
    {
      if k + PER_CYCLE == |h| {
        assert h[k] == before[k];
      } else {
        assert h[k + PER_CYCLE] >= h[k] + CYCLE;
      }
    }
  }

  /** Within a cycle, the next call is paced and granted. */
  lemma NextGranted(shares: Shares, before: seq<real>, calls: nat, t: real)
    requires calls <= 2 && Grown(shares.Worker(), before, t)
    requires shares.Fit() ==> Paced(before) && Rested(before, t) && Paced(before + Times(t, calls))
    ensures before + Times(t, calls + 1) == before + Times(t, calls) + [t]
    ensures shares.Fit() ==> Paced(before + Times(t, calls) + [t])
    ensures shares.CoversCycle() ==> ReferenceOk(shares.Worker(), before + Times(t, calls), t)
  {
    hide Paced;
    hide Rested;
    hide ReferenceOk;
    hide Grown;
    if shares.Fit() {
      PacedMore(before, calls, t);
    }
    if shares.CoversCycle() {
      CycleGranted(shares, before, calls, t);
    }
  }

  // ---- one run, as values ----

  /** The settings of a simulator. */
  datatype Desk = Desk(mode: Mode, shares: Shares, walk: Walk, streamed: set<string>, snapshotSeconds: real)

  /** What a run changes: the books, the prices kept, the samples taken. */
  datatype View = View(books: Books, kept: Kept, samples: seq<real>, agree: nat)

  function CallView(d: Desk, v: View, consumer: string, side: Side, t: real): View {
    View(Charge(d.shares, v.books, consumer, side, t), v.kept, v.samples, v.agree)
  }

  /** A call, and what is kept of its answer if it is served. */
  function AskView(d: Desk, v: View, consumer: string, t: real, kept: Kept): View {
    View(Charge(d.shares, v.books, consumer, Side.Api, t),
         if Served(d.shares, v.books, Side.Api, t) then kept else v.kept,
         v.samples, v.agree)
  }

  function LtpView(d: Desk, v: View, s: string, t: real, consumer: string): View {
    if Held(d.walk, d.streamed, d.mode, v.kept.quotes, s, t).Some? then v
    else AskView(d, v, consumer, t,
                 Kept(v.kept.quotes[s := Quote(PriceOf(d.walk, s, t), t, QUOTE_CACHE_SECONDS)], v.kept.chain))
  }

  function QuotesView(d: Desk, v: View, symbols: seq<string>, t: real): View {
    BatchView(d, v, Missing(d.walk, d.streamed, d.mode, v.kept.quotes, symbols, t), t)
  }

  /** One batch call for the missing symbols, if there are any. */
  function BatchView(d: Desk, v: View, missing: set<string>, t: real): View {
    if missing == {} then v
    else AskView(d, v, "watchlist", t, Kept(Batched(d.walk, v.kept.quotes, missing, t), v.kept.chain))
  }

  function ChainView(d: Desk, v: View, t: real, consumer: string): View {
    if d.mode == HubOn && v.kept.chain.Some? && t - v.kept.chain.value.1 < d.snapshotSeconds then v
    else AskView(d, v, consumer, t, Kept(v.kept.quotes, Some((PriceOf(d.walk, NIFTY, t), t))))
  }

  function EngineView(d: Desk, v: View, s: string, t: real): View {
    if Tick(d.walk, d.streamed, d.mode, s, t).Some? then v else CallView(d, v, "paper engine", Side.Worker, t)
  }

  function CycleView(d: Desk, v: View, names: seq<string>, t: real): View {
    if names == [] then v else EngineView(d, CycleView(d, v, names[..|names| - 1], t), names[|names| - 1], t)
  }

  // ---- what a read asks of the broker, by the streamed set and the calls attempted alone ----

  /** The hub carries the symbol. */
  predicate OnStream(d: Desk, s: string) { d.mode == HubOn && s in d.streamed }

  predicate Young(quotes: map<string, Quote>, s: string, t: real) {
    s in quotes && t <= quotes[s].stored + quotes[s].ttl
  }

  /** What a page may be told: the stream's price a fifth of a second old, a young cached one, or the price of now. */
  ghost predicate PageAnswer(d: Desk, v: View, s: string, t: real, r: Option<real>) {
    if OnStream(d, s) then r == Some(PriceOf(d.walk, s, t - 0.2))
    else if Young(v.kept.quotes, s, t) then r == Some(v.kept.quotes[s].value)
    else r == Some(PriceOf(d.walk, s, t)) || r == None
  }

  ghost predicate EngineAnswer(d: Desk, s: string, t: real, r: Option<real>) {
    if OnStream(d, s) then r == Some(PriceOf(d.walk, s, t - 0.2)) else r == Some(PriceOf(d.walk, s, t)) || r == None
  }

  lemma PageAnswers(d: Desk, v: View, s: string, t: real, leave: bool)
    ensures PageAnswer(d, v, s, t, Reading(d.walk, d.streamed, d.mode, v.kept.quotes, s, t, leave))
  {
    hide PriceOf;
  }

  lemma EngineAnswers(d: Desk, s: string, t: real, leave: bool)
    ensures EngineAnswer(d, s, t, Reading(d.walk, d.streamed, d.mode, map[], s, t, leave))
  {
    hide PriceOf;
  }

  /** One call for a symbol that is neither streamed nor cached, and none for any other. */
  lemma LtpAsks(d: Desk, v: View, s: string, t: real, consumer: string)
    ensures LtpView(d, v, s, t, consumer).books.attempts
            == v.books.attempts + if OnStream(d, s) || Young(v.kept.quotes, s, t) then 0 else 1
  {
    hide PriceOf;
    hide Allows;
    hide Served;
  }

  /** One call for all symbols that are neither streamed nor cached, if there is one. */
  lemma QuotesAsk(d: Desk, v: View, symbols: seq<string>, t: real)
    ensures QuotesView(d, v, symbols, t).books.attempts
            == v.books.attempts
               + if exists s | s in symbols :: !OnStream(d, s) && !Young(v.kept.quotes, s, t) then 1 else 0
  {
    hide PriceOf;
    hide Allows;
    hide Served;
    var missing := Missing(d.walk, d.streamed, d.mode, v.kept.quotes, symbols, t);
    assert forall s :: s in missing <==> s in symbols && !OnStream(d, s) && !Young(v.kept.quotes, s, t);
    if missing != {} {
      var s :| s in missing;
    }
  }

  /**
  The hub's copy of the chain saves the call while it is young; a copy is the price of the instant it was fetched.
  */
  lemma ChainAsks(d: Desk, v: View, t: real, consumer: string)
    ensures var shared := d.mode == HubOn && v.kept.chain.Some? && t < v.kept.chain.value.1 + d.snapshotSeconds;
            var after := ChainView(d, v, t, consumer);
            && after.books.attempts == v.books.attempts + (if shared then 0 else 1)
            && (after.kept.chain == v.kept.chain || after.kept.chain == Some((PriceOf(d.walk, NIFTY, t), t)))
            && after.kept.quotes == v.kept.quotes
  {
    hide PriceOf;
    hide Allows;
    hide Served;
  }

  lemma CallAsks(d: Desk, v: View, consumer: string, side: Side, t: real)
    ensures CallView(d, v, consumer, side, t).books.attempts == v.books.attempts + 1
  {
    hide Allows;
    hide Served;
  }

  lemma EngineAsks(d: Desk, v: View, s: string, t: real)
    ensures EngineView(d, v, s, t).books.attempts == v.books.attempts + if OnStream(d, s) then 0 else 1
  {
    hide PriceOf;
    hide Allows;
    hide Served;
  }

  lemma CycleNext(d: Desk, v: View, names: seq<string>, i: nat, t: real)
    requires i <= |names|
    ensures i == 0 ==> CycleView(d, v, names[..i], t) == v
    ensures i < |names| ==>
              CycleView(d, v, names[..i + 1], t) == EngineView(d, CycleView(d, v, names[..i], t), names[i], t)
    ensures i == |names| ==> names[..i] == names
  {
    if i < |names| {
      assert names[..i + 1][..i] == names[..i];
    }
  }

  function Spread(d: Desk, v: View, t: real): real {
    Apart(Reading(d.walk, d.streamed, d.mode, v.kept.quotes, NIFTY, t, true).value,
          Reading(d.walk, d.streamed, d.mode, map[], NIFTY, t, true).value)
  }

  function SampleView(d: Desk, v: View, t: real): View {
    View(v.books, v.kept, v.samples + [Spread(d, v, t)], v.agree + if Spread(d, v, t) < SAME_PRICE then 1 else 0)
  }

  function ChartView(d: Desk, v: View, next: Schedule, t: real): View {
    if t >= next.chart then LtpView(d, v, NIFTY, t, "chart") else v
  }

  function WatchView(d: Desk, v: View, next: Schedule, t: real): View {
    if t >= next.watch then QuotesView(d, v, Watchlist(), t) else v
  }

  function OptionsView(d: Desk, v: View, next: Schedule, t: real): View {
    if t >= next.chain then LtpView(d, ChainView(d, v, t, "option chain"), FUTURE, t, "option chain") else v
  }

  function WorkerView(d: Desk, v: View, next: Schedule, t: real): View {
    if t >= next.worker then CycleView(d, v, [NIFTY] + POSITIONS, t) else v
  }

  function CopilotView(d: Desk, v: View, next: Schedule, t: real): View {
    if t >= next.copilot then ChainView(d, CallView(d, v, "copilot", Side.Api, t), t, "copilot") else v
  }

  /** The pages' polls due at t. */
  function PagesView(d: Desk, v: View, next: Schedule, t: real): View {
    OptionsView(d, WatchView(d, ChartView(d, v, next, t), next, t), next, t)
  }

  /** Everything due at t, in the order of the loop. */
  function DueView(d: Desk, v: View, next: Schedule, t: real): View {
    SampledView(d, CopilotView(d, WorkerView(d, PagesView(d, v, next, t), next, t), next, t), next, t)
  }

  function SampledView(d: Desk, v: View, next: Schedule, t: real): View {
    if t >= next.sample then SampleView(d, v, t) else v
  }

  /** What was due at t comes again one interval later. */
  function Later(next: Schedule, t: real): Schedule {
    Schedule(if t >= next.chart then next.chart + CHART_POLL else next.chart,
             if t >= next.watch then next.watch + WATCHLIST_POLL else next.watch,
             if t >= next.chain then next.chain + CHAIN_POLL else next.chain,
             if t >= next.worker then next.worker + WORKER_CYCLE else next.worker,
             if t >= next.copilot then next.copilot + COPILOT_EVERY else next.copilot,
             if t >= next.sample then next.sample + SAMPLE_EVERY else next.sample)
  }

  const FIRST := Schedule(0.0, 0.0, 0.0, 0.0, 30.0, 3.5)

  /** The virtual time of a step. */
  function TimeOf(i: nat): real { i as real * STEP }

  lemma TimesOfSteps(i: nat)
    ensures TimeOf(0) == 0.0 && TimeOf(i + 1) == TimeOf(i) + STEP
  {}

  /** After so many steps of a run. */
  function NextDue(n: nat): Schedule { if n == 0 then FIRST else Later(NextDue(n - 1), TimeOf(n - 1)) }

  function RunView(d: Desk, v: View, n: nat): View {
    if n == 0 then v else DueView(d, RunView(d, v, n - 1), NextDue(n - 1), TimeOf(n - 1))
  }

  lemma RunNext(d: Desk, v: View, n: nat)
    ensures RunView(d, v, 0) == v && NextDue(0) == FIRST
    ensures RunView(d, v, n + 1) == DueView(d, RunView(d, v, n), NextDue(n), TimeOf(n))
    ensures NextDue(n + 1) == Later(NextDue(n), TimeOf(n))
  {
    hide DueView;
    hide Later;
  }

  /** A fresh simulator: with the hub on its stream's authorise call has been made, once per session. */
  function Opened(d: Desk): View {
    if d.mode == HubOn then CallView(d, View(NOTHING, Kept(map[], None), [], 0), "stream", Side.Worker, 0.0)
    else View(NOTHING, Kept(map[], None), [], 0)
  }

  /** How many steps a run of so many seconds takes: the first at 0, then as many whole steps as fit. */
  function Steps(seconds: real): nat {
    if seconds >= 0.0 then (seconds / STEP).Floor + 1
    else if (-seconds / STEP).Floor == 0 then 1 else 0
  }

  // ---- sampling leaves no trace ----

  predicate SameButSamples(v: View, w: View) { v.books == w.books && v.kept == w.kept }

  /** Everything due at t but the sample. */
  function ServeView(d: Desk, v: View, next: Schedule, t: real): View {
    CopilotView(d, WorkerView(d, PagesView(d, v, next, t), next, t), next, t)
  }

  function UnsampledView(d: Desk, v: View, n: nat): View {
    if n == 0 then v else ServeView(d, UnsampledView(d, v, n - 1), NextDue(n - 1), TimeOf(n - 1))
  }

  lemma AsksSame(d: Desk, v: View, w: View, t: real, consumer: string)
    requires SameButSamples(v, w)
    ensures forall s :: SameButSamples(LtpView(d, v, s, t, consumer), LtpView(d, w, s, t, consumer))
    ensures forall symbols :: SameButSamples(QuotesView(d, v, symbols, t), QuotesView(d, w, symbols, t))
    ensures SameButSamples(ChainView(d, v, t, consumer), ChainView(d, w, t, consumer))
  {
    hide Charge;
    hide Served;
    hide Held;
    hide Missing;
    hide Batched;
    hide PriceOf;
  }

  lemma {:induction false} CyclesSame(d: Desk, v: View, w: View, names: seq<string>, t: real)
    requires SameButSamples(v, w)
    ensures SameButSamples(CycleView(d, v, names, t), CycleView(d, w, names, t))
  {
    hide Charge;
    hide Tick;
    if names != [] {
      CyclesSame(d, v, w, names[..|names| - 1], t);
    }
  }

  lemma PagesSame(d: Desk, v: View, w: View, next: Schedule, t: real)
    requires SameButSamples(v, w)
    ensures SameButSamples(PagesView(d, v, next, t), PagesView(d, w, next, t))
  {
    hide LtpView;
    hide QuotesView;
    hide ChainView;
    hide SameButSamples;
    AsksSame(d, v, w, t, "chart");
    var a, b := ChartView(d, v, next, t), ChartView(d, w, next, t);
    AsksSame(d, a, b, t, "watchlist");
    var x, y := WatchView(d, a, next, t), WatchView(d, b, next, t);
    AsksSame(d, x, y, t, "option chain");
    AsksSame(d, ChainView(d, x, t, "option chain"), ChainView(d, y, t, "option chain"), t, "option chain");
  }

  lemma ServesSame(d: Desk, v: View, w: View, next: Schedule, t: real)
    requires SameButSamples(v, w)
    ensures SameButSamples(ServeView(d, v, next, t), ServeView(d, w, next, t))
  {
    hide PagesView;
    hide CycleView;
    hide ChainView;
    hide Charge;
    PagesSame(d, v, w, next, t);
    CyclesSame(d, PagesView(d, v, next, t), PagesView(d, w, next, t), [NIFTY] + POSITIONS, t);
    var a, b := WorkerView(d, PagesView(d, v, next, t), next, t), WorkerView(d, PagesView(d, w, next, t), next, t);
    AsksSame(d, CallView(d, a, "copilot", Side.Api, t), CallView(d, b, "copilot", Side.Api, t), t, "copilot");
  }

  /** A run without a single sample makes the same calls with the same answers and keeps the same prices. */
  lemma {:induction false} SamplesInvisible(d: Desk, v: View, n: nat)
    ensures SameButSamples(RunView(d, v, n), UnsampledView(d, v, n))
  {
    hide PagesView;
    hide WorkerView;
    hide CopilotView;
    hide Spread;
    hide NextDue;
    hide TimeOf;
    if n > 0 {
      SamplesInvisible(d, v, n - 1);
      ServesSame(d, RunView(d, v, n - 1), UnsampledView(d, v, n - 1), NextDue(n - 1), TimeOf(n - 1));
    }
  }
}
