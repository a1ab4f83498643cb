/**
The probe's simulator: one trader's pages, a paper engine and a Copilot reading prices through one broker connection.
*/
module HubSimulator {
  import opened Wrappers
  import opened HubLimiter
  import opened HubLimiterInvariant
  import opened HubLimiterBounds
  import opened HubWindows
  import opened HubMarket
  import opened HubBudgets
  import opened HubReads

  class Sim {
    const mode: Mode
    const shares: Shares
    const walk: Walk
    const streamed: set<string>
    const snapshotSeconds: real
    const market: Market
    const api: Windows
    const worker: Windows
    const broker: Windows
    var c: Counters
    var quotes: map<string, Quote>
    var chain: Option<(real, real)>
    var samples: seq<real>
    var agree: nat
    ghost var attempts: nat
    ghost var now: real      // the virtual time the market has been advanced to

    ghost function Booked(): Books
      reads this`c, this`attempts, api, worker, broker
    {
      Books(c, attempts, api.accepted, worker.accepted, broker.accepted)
    }

    function Shelf(): Kept
      reads this`quotes, this`chain
    {
      Kept(quotes, chain)
    }

    function Settings(): Desk { Desk(mode, shares, walk, streamed, snapshotSeconds) }

    ghost function Now(): View
      reads this, api, worker, broker
    {
      View(Booked(), Shelf(), samples, agree)
    }

    function OwnRead(s: string, t: real): Option<real>
      reads this`quotes
    {
      Held(walk, streamed, mode, quotes, s, t)
    }

    ghost predicate LimitersValid()
      reads this`now, api, worker, broker
    {
      && api != worker && worker != broker && api != broker && shares.Sound()
      && api.cfg == shares.Api() && worker.cfg == shares.Worker() && broker.cfg == PUBLISHED
      && api.Valid() && worker.Valid() && broker.Valid()
      && api.now <= now && worker.now <= now && broker.now <= now
    }

    ghost predicate MarketValid()
      reads this`now, market
    {
      market.Valid() && market.walk == walk && market.symbols == Unique(SYMBOLS) && market.moves == MoveAt(now)
    }

    ghost predicate Valid()
      reads this, market, api, worker, broker
    {
      LimitersValid() && MarketValid() && Balanced(Booked()) && KeptSound(walk, Shelf(), now) && agree <= |samples|
    }

    /** Nothing sampled, and at most the authorise call made. */
    ghost predicate AtStart()
      reads this`now, this`samples, this`agree, this`c, worker
    {
      && now == 0.0 && samples == [] && agree == 0 && |worker.accepted| <= 1
      && (shares.Fit() ==> c.broker429 == 0) && (shares.CoversCycle() ==> c.refusedWorker == 0)
    }

    constructor (mode: Mode, walk: Walk, shares: Shares, streamed: set<string>, snapshotSeconds: real)
      requires shares.Sound()
      ensures Valid() && fresh(market) && fresh(api) && fresh(worker) && fresh(broker) && now == 0.0
      ensures this.mode == mode && this.walk == walk && this.shares == shares && this.streamed == streamed
      ensures this.snapshotSeconds == snapshotSeconds
      ensures AtStart() && Now() == Opened(Settings())
    {
      hide Balanced;
      hide Windows.Valid;
      hide Market.Valid;
      hide Charge;
      hide Unique;
      hide MoveAt;
      hide SYMBOLS;
      this.mode, this.walk, this.shares, this.streamed, this.snapshotSeconds :=
        mode, walk, shares, streamed, snapshotSeconds;
      market := new Market(walk, Unique(SYMBOLS));
      api := new Windows(shares.Api(), 0.0);
      worker := new Windows(shares.Worker(), 0.0);
      broker := new Windows(PUBLISHED, 0.0);
      c, attempts, now := NO_CALLS, 0, 0.0;
      quotes, chain, samples, agree := map[], None, [], 0;
      new;
      NothingBalanced();
      NoMoveAtStart();
      NothingPaced();
      hide Paced;
      assert Booked() == NOTHING;
      if mode == HubOn {
        assert Extended(worker.accepted, true, 0.0) == [0.0];
        FirstGranted(shares);
        var _ := Call("stream", Side.Worker, 0.0); 
      }
    }

    /** One call's way through its side's budget. */
    method TakeBudget(side: Side, t: real) returns (granted: bool)
      requires LimitersValid() && t == now
      modifies api, worker
      ensures LimitersValid() && granted == Allows(shares, old(Booked()), side, t)
      ensures api.accepted == Extended(old(api.accepted), granted && side == Side.Api, t)
      ensures worker.accepted == Extended(old(worker.accepted), granted && side == Side.Worker, t)
    {
      hide Windows.Valid;
      hide Step;
      hide ReferenceOk;
      if side == Side.Api {
        granted := api.Take(t);
      } else {
        granted := worker.Take(t);
      }
    }

    method TakeBroker(t: real) returns (ok: bool)
      requires LimitersValid() && t == now
      modifies broker
      ensures LimitersValid() && ok == ReferenceOk(PUBLISHED, old(broker.accepted), t)
      ensures broker.accepted == Extended(old(broker.accepted), ok, t)
    {
      hide Windows.Valid;
      hide Step;
      hide ReferenceOk;
      ok := broker.Take(t);
    }

    method Count(consumer: string, side: Side, granted: bool, served: bool)
      modifies this`c, this`attempts
      ensures c == Counted(old(c), consumer, side, granted, served) && attempts == old(attempts) + 1
    {
      attempts := attempts + 1;
      if !granted {
        if side == Side.Api {
          c := c.(refusedApi := c.refusedApi + 1);
        } else {
          c := c.(refusedWorker := c.refusedWorker + 1);
        }
        return;
      }
      if !served {
        c := c.(broker429 := c.broker429 + 1);
        return;
      }
      if side == Side.Api {
        c := c.(api := c.api + 1);
      } else {
        c := c.(worker := c.worker + 1);
      }
      c := c.(byConsumer := c.byConsumer[consumer := Of(c.byConsumer, consumer) + 1]);
    }

    /** The budget, then the broker. */
    method TakeBoth(side: Side, t: real) returns (granted: bool, ok: bool)
      requires LimitersValid() && t == now
      modifies api, worker, broker
      ensures LimitersValid() && granted == Allows(shares, old(Booked()), side, t)
              && ok == Served(shares, old(Booked()), side, t)
      ensures api.accepted == Extended(old(api.accepted), granted && side == Side.Api, t)
      ensures worker.accepted == Extended(old(worker.accepted), granted && side == Side.Worker, t)
      ensures broker.accepted == Extended(old(broker.accepted), ok, t)
    {
      assert api != worker && worker != broker && api != broker;
      hide LimitersValid;
      hide Allows;
      hide ReferenceOk;
      granted := TakeBudget(side, t);
      ok := false;
      if granted {
        ok := TakeBroker(t);
      }
    }

    lemma Histories()
      requires LimitersValid()
      ensures Grown(shares.Api(), api.accepted, now) && Grown(shares.Worker(), worker.accepted, now)
    {}

    lemma CallQuiet(consumer: string, side: Side)
      requires LimitersValid() && Balanced(Booked())
      ensures shares.Fit() && Paced(Extended(worker.accepted, side == Side.Worker, now)) ==>
                Charge(shares, Booked(), consumer, side, now).c.broker429 == c.broker429
      ensures Charge(shares, Booked(), consumer, side, now).c.refusedWorker
              == c.refusedWorker + if side == Side.Worker && !Allows(shares, Booked(), side, now) then 1 else 0
    {
      hide ReferenceOk;
      Histories();
      hide LimitersValid;
      if shares.Fit() && Paced(Extended(worker.accepted, side == Side.Worker, now))
         && Allows(shares, Booked(), side, now)
      {
        GrantedIsServed(shares, Booked(), side, now);
      }
    }

    /** `_call`, on the limiters and the counters alone. */
    method Book(consumer: string, side: Side, t: real) returns (ok: bool)
      requires LimitersValid() && t == now
      modifies this`c, this`attempts, api, worker, broker
      ensures LimitersValid()
      ensures Booked() == Charge(shares, old(Booked()), consumer, side, t)
              && ok == Served(shares, old(Booked()), side, t)
      ensures side == Side.Api ==> worker.accepted == old(worker.accepted)
      ensures worker.accepted == old(worker.accepted) || worker.accepted == old(worker.accepted) + [t]
    {
      hide LimitersValid;
      hide Counted;
      hide Allows;
      hide Served;
      hide Windows.Valid;
      var granted;
      granted, ok := TakeBoth(side, t);
      Count(consumer, side, granted, ok);
    }

    method Call(consumer: string, side: Side, t: real) returns (ok: bool)
      requires Valid() && t == now
      modifies this`c, this`attempts, api, worker, broker
      ensures Valid()
      ensures Booked() == Charge(shares, old(Booked()), consumer, side, t)
              && ok == Served(shares, old(Booked()), side, t)
      ensures side == Side.Api ==> worker.accepted == old(worker.accepted)
      ensures worker.accepted == old(worker.accepted) || worker.accepted == old(worker.accepted) + [t]
      ensures shares.Fit() && Paced(Extended(old(worker.accepted), side == Side.Worker, t))
              ==> c.broker429 == old(c.broker429)
      ensures side == Side.Api || Allows(shares, old(Booked()), side, t) ==> c.refusedWorker == old(c.refusedWorker)
    {
      hide LimitersValid;
      hide MarketValid;
      hide KeptSound;
      hide Balanced;
      hide Charge;
      hide Served;
      hide Extended;
      hide Paced;
      hide Shares.Fit;
      hide Allows;
      ChargeBalanced(shares, Booked(), consumer, side, t);
      CallQuiet(consumer, side);
      ok := Book(consumer, side, t);
      assert Booked().c == c;
    }

    lemma Totals()
      requires Valid()
      ensures Total(c.byConsumer) == c.api + c.worker
    {}

    /** The market price `back` seconds ago. */
    method Price(s: string, t: real, back: real) returns (price: real)
      requires MarketValid() && t == now && s in SYMBOLS && 0.0 <= back <= 900.0
      ensures price == PriceOf(walk, s, t - back)
    {
      hide MoveAt;
      hide PriceOf;
      hide SYMBOLS;
      KeepsRecent(market.moves, t, back);
      price := market.At(s, t - back);
    }

    /** One symbol for a page: from the stream if it carries it, from the cache if that is young, else by asking. */
    method AnswerLtp(s: string, t: real, consumer: string, count: bool) returns (r: Option<real>)
      requires Valid() && t == now && s in SYMBOLS
      modifies this`c, this`attempts, this`quotes, api, worker, broker
      ensures Valid()
      ensures r == Reading(walk, streamed, mode, old(quotes), s, t,
                           !count || Served(shares, old(Booked()), Side.Api, t))
      ensures Now() == if count then LtpView(Settings(), old(Now()), s, t, consumer) else old(Now())
      ensures !count ==> unchanged(this, api, worker, broker)
      ensures worker.accepted == old(worker.accepted) && c.refusedWorker == old(c.refusedWorker)
      ensures shares.Fit() && Paced(old(worker.accepted)) ==> c.broker429 == old(c.broker429)
    {
      hide MoveAt;
      hide PriceOf;
      hide SYMBOLS;
      hide LimitersValid;
      hide Balanced;
      hide Charge;
      hide Served;
      hide MarketValid;
      if mode == HubOn && s in streamed {
        var price := Price(s, t, STREAM_LATENCY);
        return Some(price);
      }
      var cached := Cached(quotes, s, t);
      if cached.Some? {
        return cached;
      }
      if !count {
        var price := Price(s, t, 0.0);
        return Some(price);
      }
      var ok := Call(consumer, Side.Api, t);
      if !ok {
        return None;
      }
      var price := Price(s, t, 0.0);
      quotes := quotes[s := Quote(price, t, QUOTE_CACHE_SECONDS)];
      r := Some(price);
    }

    /** The same, and the price is a recent one. */
    method Ltp(s: string, t: real, consumer: string, count: bool) returns (r: Option<real>)
      requires Valid() && t == now && s in SYMBOLS
      modifies this`c, this`attempts, this`quotes, api, worker, broker
      ensures Valid()
      ensures r == Reading(walk, streamed, mode, old(quotes), s, t,
                           !count || Served(shares, old(Booked()), Side.Api, t))
      ensures r.Some? ==> FreshPrice(walk, s, r.value, t, BATCH_CACHE_SECONDS)
      ensures PageAnswer(Settings(), old(Now()), s, t, r)
      ensures count ==>
                attempts == old(attempts) + if OnStream(Settings(), s) || Young(old(quotes), s, t) then 0 else 1
      ensures Now() == if count then LtpView(Settings(), old(Now()), s, t, consumer) else old(Now())
      ensures !count ==> unchanged(this, api, worker, broker)
      ensures worker.accepted == old(worker.accepted) && c.refusedWorker == old(c.refusedWorker)
      ensures shares.Fit() && Paced(old(worker.accepted)) ==> c.broker429 == old(c.broker429)
    {
      ReadingIsFresh(walk, streamed, mode, Shelf(), s, t, !count || Served(shares, Booked(), Side.Api, t));
      PageAnswers(Settings(), Now(), s, t, !count || Served(shares, Booked(), Side.Api, t));
      LtpAsks(Settings(), Now(), s, t, consumer);
      hide PageAnswer;
      hide OnStream;
      hide Young;
      hide Valid;
      hide KeptSound;
      hide Reading;
      hide FreshPrice;
      hide LtpView;
      hide QuotesView;
      hide EngineView;
      hide CallView;
      hide Shares.Fit;
      hide Paced;
      hide Served;
      r := AnswerLtp(s, t, consumer, count);
    }

    lemma AllReadingsFresh(symbols: seq<string>, t: real, leave: bool)
      requires KeptSound(walk, Shelf(), t)
      ensures forall s | s in symbols && Reading(walk, streamed, mode, quotes, s, t, leave).Some? ::
                FreshPrice(walk, s, Reading(walk, streamed, mode, quotes, s, t, leave).value, t, BATCH_CACHE_SECONDS)
      ensures forall s | s in symbols ::
                PageAnswer(Settings(), Now(), s, t, Reading(walk, streamed, mode, quotes, s, t, leave))
    {
      hide KeptSound;
      hide FreshPrice;
      hide Reading;
      forall s | s in symbols && Reading(walk, streamed, mode, quotes, s, t, leave).Some?
        ensures FreshPrice(walk, s, Reading(walk, streamed, mode, quotes, s, t, leave).value, t, BATCH_CACHE_SECONDS)
      {
        ReadingIsFresh(walk, streamed, mode, Shelf(), s, t, leave);
      }
      forall s | s in symbols
        ensures PageAnswer(Settings(), Now(), s, t, Reading(walk, streamed, mode, quotes, s, t, leave))
      {
        PageAnswers(Settings(), Now(), s, t, leave);
      }
    }

    /** Many symbols for a page: whatever stream and cache do not give is asked for together. */
    method AnswerQuotes(symbols: seq<string>, t: real, count: bool) returns (out: map<string, Option<real>>)
      requires Valid() && t == now && forall s | s in symbols :: s in SYMBOLS
      modifies this`c, this`attempts, this`quotes, api, worker, broker
      ensures Valid()
      ensures out.Keys == Elements(symbols)
      ensures forall s | s in symbols ::
                out[s] == Reading(walk, streamed, mode, old(quotes), s, t,
                                  !count || Served(shares, old(Booked()), Side.Api, t))
      ensures Now() == if count then QuotesView(Settings(), old(Now()), symbols, t) else old(Now())
      ensures !count ==> unchanged(this, api, worker, broker)
      ensures worker.accepted == old(worker.accepted) && c.refusedWorker == old(c.refusedWorker)
      ensures shares.Fit() && Paced(old(worker.accepted)) ==> c.broker429 == old(c.broker429)
    {
      hide MoveAt;
      hide PriceOf;
      hide SYMBOLS;
      hide LimitersValid;
      hide Balanced;
      hide Charge;
      hide Served;
      hide MarketValid;
      hide Missing;
      hide Held;
      hide Batched;
      hide KeptSound;
      ghost var missing := Missing(walk, streamed, mode, quotes, symbols, t);
      var rest;
      out, rest := FirstReads(symbols, t);
      if rest == [] {
        assert missing == {};
        return;
      }
      assert rest[0] in Elements(rest);
      if !count {
        out := FillIn(out, rest, t);
        return;
      }
      var ok := Call("watchlist", Side.Api, t);
      if ok {
        out := FillIn(out, rest, t);
        Store(rest, t);
      }
    }

    /** The same, and the price is a recent one. */
    method Quotes(symbols: seq<string>, t: real, count: bool) returns (out: map<string, Option<real>>)
      requires Valid() && t == now && forall s | s in symbols :: s in SYMBOLS
      modifies this`c, this`attempts, this`quotes, api, worker, broker
      ensures Valid()
      ensures out.Keys == Elements(symbols)
      ensures forall s | s in symbols ::
                out[s] == Reading(walk, streamed, mode, old(quotes), s, t,
                                  !count || Served(shares, old(Booked()), Side.Api, t))
      ensures forall s | s in symbols && out[s].Some? :: FreshPrice(walk, s, out[s].value, t, BATCH_CACHE_SECONDS)
      ensures forall s | s in symbols :: PageAnswer(Settings(), old(Now()), s, t, out[s])
      ensures count ==>
                attempts == old(attempts)
                            + if exists s | s in symbols :: !OnStream(Settings(), s) && !Young(old(quotes), s, t)
                              then 1 else 0
      ensures Now() == if count then QuotesView(Settings(), old(Now()), symbols, t) else old(Now())
      ensures !count ==> unchanged(this, api, worker, broker)
      ensures worker.accepted == old(worker.accepted) && c.refusedWorker == old(c.refusedWorker)
      ensures shares.Fit() && Paced(old(worker.accepted)) ==> c.broker429 == old(c.broker429)
    {
      AllReadingsFresh(symbols, t, !count || Served(shares, Booked(), Side.Api, t));
      QuotesAsk(Settings(), Now(), symbols, t);
      hide PageAnswer;
      hide OnStream;
      hide Young;
      hide Valid;
      hide KeptSound;
      hide Reading;
      hide FreshPrice;
      hide LtpView;
      hide QuotesView;
      hide EngineView;
      hide CallView;
      hide Shares.Fit;
      hide Paced;
      hide Served;
      out := AnswerQuotes(symbols, t, count);
    }

    /** What is read without a call, and the symbols that are left. */
    method FirstReads(symbols: seq<string>, t: real) returns (out: map<string, Option<real>>, rest: seq<string>)
      requires MarketValid() && t == now && forall s | s in symbols :: s in SYMBOLS
      ensures out.Keys == Elements(symbols)
              && (forall s | s in symbols :: out[s] == Held(walk, streamed, mode, quotes, s, t))
      ensures Elements(rest) == Missing(walk, streamed, mode, quotes, symbols, t) <= Elements(symbols)
      ensures forall s | s in symbols :: s in Elements(rest) <==> out[s].None?
    {
      hide MoveAt;
      hide PriceOf;
      hide SYMBOLS;
      hide MarketValid;
      out, rest := map[], [];
      for i := 0 to |symbols|
        invariant out.Keys == set k | 0 <= k < i :: symbols[k]
        invariant forall s | s in out :: out[s] == OwnRead(s, t)
        invariant forall s :: s in rest <==> s in out && out[s].None?
      {
        var s := symbols[i];
        var tick := None;
        if mode == HubOn && s in streamed {
          var price := Price(s, t, STREAM_LATENCY);
          tick := Some(price);
        }
        var read := if tick.Some? then tick else Cached(quotes, s, t);
        if read.None? {
          rest := rest + [s];
        }
        out := out[s := read];
      }
    }

    method FillIn(first: map<string, Option<real>>, rest: seq<string>, t: real) returns (out: map<string, Option<real>>)
      requires MarketValid() && t == now && Elements(rest) <= first.Keys && forall s | s in first :: s in SYMBOLS
      ensures out.Keys == first.Keys
      ensures forall s | s in first :: out[s] == if s in Elements(rest) then Some(PriceOf(walk, s, t)) else first[s]
    {
      hide MoveAt;
      hide PriceOf;
      hide SYMBOLS;
      hide MarketValid;
      out := first;
      for i := 0 to |rest|
        invariant out.Keys == first.Keys
        invariant forall s | s in first :: out[s] == if s in rest[..i] then Some(PriceOf(walk, s, t)) else first[s]
      {
        assert rest[i] in Elements(rest);
        var price := Price(rest[i], t, 0.0);
        out := out[rest[i] := Some(price)];
      }
      assert rest[..|rest|] == rest;
    }

    method Store(rest: seq<string>, t: real)
      requires Valid() && t == now && forall s | s in Elements(rest) :: s in SYMBOLS
      modifies this`quotes
      ensures Valid() && quotes == Batched(walk, old(quotes), Elements(rest), t)
    {
      hide MoveAt;
      hide PriceOf;
      hide SYMBOLS;
      hide MarketValid;
      hide LimitersValid;
      hide Balanced;
      hide KeptSound;
      hide Batched;
      ghost var before, done: set<string> := quotes, {};
      BatchedNone(walk, before, t);
      BatchedSound(walk, Shelf(), Elements(rest), t);
      for i := 0 to |rest|
        invariant MarketValid() && quotes == Batched(walk, before, done, t)
        invariant forall s :: s in done <==> s in rest[..i]
      {
        var price := Price(rest[i], t, 0.0);
        BatchedNext(walk, before, done, rest[i], t);
        quotes := quotes[rest[i] := Quote(price, t, BATCH_CACHE_SECONDS)];
        done := done + {rest[i]};
      }
      assert done == Elements(rest);
    }

    /** The option chain: with the hub on, one copy serves everybody for a while. */
    method Chain(t: real, consumer: string)
      requires Valid() && t == now
      modifies this`c, this`attempts, this`chain, api, worker, broker
      ensures Valid()
      ensures Now() == ChainView(Settings(), old(Now()), t, consumer)
      ensures worker.accepted == old(worker.accepted) && c.refusedWorker == old(c.refusedWorker)
      ensures shares.Fit() && Paced(old(worker.accepted)) ==> c.broker429 == old(c.broker429)
    {
      SymbolsKnown();
      hide MoveAt;
      hide PriceOf;
      hide SYMBOLS;
      hide LimitersValid;
      hide Balanced;
      hide Charge;
      hide Served;
      hide MarketValid;
      if mode == HubOn && chain.Some? && t - chain.value.1 < snapshotSeconds {
        return;
      }
      var ok := Call(consumer, Side.Api, t);
      if ok {
        var price := Price(NIFTY, t, 0.0);
        chain := Some((price, t));
      }
    }

    /** The paper engine's price: a fresh tick, else one call through the worker's budget. */
    method AnswerEngine(s: string, t: real, count: bool) returns (r: Option<real>)
      requires Valid() && t == now && s in SYMBOLS
      modifies this`c, this`attempts, api, worker, broker
      ensures Valid()
      ensures r == Reading(walk, streamed, mode, map[], s, t, !count || Served(shares, old(Booked()), Side.Worker, t))
      ensures Now() == if count then EngineView(Settings(), old(Now()), s, t) else old(Now())
      ensures !count ==> unchanged(this, api, worker, broker)
      ensures worker.accepted == old(worker.accepted) || worker.accepted == old(worker.accepted) + [t]
      ensures shares.Fit() && Paced(old(worker.accepted) + [t]) ==> c.broker429 == old(c.broker429)
      ensures Allows(shares, old(Booked()), Side.Worker, t) ==> c.refusedWorker == old(c.refusedWorker)
    {
      hide MoveAt;
      hide PriceOf;
      hide SYMBOLS;
      hide LimitersValid;
      hide Balanced;
      hide Charge;
      hide Served;
      hide MarketValid;
      if mode == HubOn && s in streamed {
        var price := Price(s, t, STREAM_LATENCY);
        return Some(price);
      }
      var ok := !count;
      if count {
        ok := Call("paper engine", Side.Worker, t);
      }
      if !ok {
        return None;
      }
      var price := Price(s, t, 0.0);
      r := Some(price);
    }

    /** The same, and the price is a recent one. */
    method EngineLtp(s: string, t: real, count: bool) returns (r: Option<real>)
      requires Valid() && t == now && s in SYMBOLS
      modifies this`c, this`attempts, api, worker, broker
      ensures Valid()
      ensures r == Reading(walk, streamed, mode, map[], s, t, !count || Served(shares, old(Booked()), Side.Worker, t))
      ensures r.Some? ==> FreshPrice(walk, s, r.value, t, STREAM_LATENCY)
      ensures EngineAnswer(Settings(), s, t, r)
      ensures count ==> attempts == old(attempts) + if OnStream(Settings(), s) then 0 else 1
      ensures Now() == if count then EngineView(Settings(), old(Now()), s, t) else old(Now())
      ensures !count ==> unchanged(this, api, worker, broker)
      ensures worker.accepted == old(worker.accepted) || worker.accepted == old(worker.accepted) + [t]
      ensures shares.Fit() && Paced(old(worker.accepted) + [t]) ==> c.broker429 == old(c.broker429)
      ensures Allows(shares, old(Booked()), Side.Worker, t) ==> c.refusedWorker == old(c.refusedWorker)
    {
      ReadingIsFresh(walk, streamed, mode, Shelf(), s, t, !count || Served(shares, Booked(), Side.Worker, t));
      EngineAnswers(Settings(), s, t, !count || Served(shares, Booked(), Side.Worker, t));
      EngineAsks(Settings(), Now(), s, t);
      hide EngineAnswer;
      hide OnStream;
      hide Valid;
      hide KeptSound;
      hide Reading;
      hide FreshPrice;
      hide LtpView;
      hide QuotesView;
      hide EngineView;
      hide CallView;
      hide Shares.Fit;
      hide Paced;
      hide Served;
      r := AnswerEngine(s, t, count);
    }

    /** The Copilot's quote: always one call when counted, and the connection's tick where there is one. */
    method AnswerCopilot(t: real, count: bool) returns (price: real)
      requires Valid() && t == now
      modifies this`c, this`attempts, api, worker, broker
      ensures Valid()
      ensures price == Reading(walk, streamed, mode, map[], NIFTY, t, true).value
      ensures Now() == if count then CallView(Settings(), old(Now()), "copilot", Side.Api, t) else old(Now())
      ensures !count ==> unchanged(this, api, worker, broker)
      ensures worker.accepted == old(worker.accepted) && c.refusedWorker == old(c.refusedWorker)
      ensures shares.Fit() && Paced(old(worker.accepted)) ==> c.broker429 == old(c.broker429)
    {
      SymbolsKnown();
      hide MoveAt;
      hide PriceOf;
      hide SYMBOLS;
      hide LimitersValid;
      hide Balanced;
      hide Charge;
      hide Served;
      hide MarketValid;
      if count {
        var _ := Call("copilot", Side.Api, t);
      }
      price := Price(NIFTY, t, if mode == HubOn && NIFTY in streamed then STREAM_LATENCY else 0.0);
    }

    /** The same, and the price is a recent one. */
    method CopilotQuote(t: real, count: bool) returns (price: real)
      requires Valid() && t == now
      modifies this`c, this`attempts, api, worker, broker
      ensures Valid()
      ensures price == Reading(walk, streamed, mode, map[], NIFTY, t, true).value
      ensures FreshPrice(walk, NIFTY, price, t, STREAM_LATENCY)
      ensures EngineAnswer(Settings(), NIFTY, t, Some(price))
      ensures count ==> attempts == old(attempts) + 1
      ensures Now() == if count then CallView(Settings(), old(Now()), "copilot", Side.Api, t) else old(Now())
      ensures !count ==> unchanged(this, api, worker, broker)
      ensures worker.accepted == old(worker.accepted) && c.refusedWorker == old(c.refusedWorker)
      ensures shares.Fit() && Paced(old(worker.accepted)) ==> c.broker429 == old(c.broker429)
    {
      ReadingIsFresh(walk, streamed, mode, Shelf(), NIFTY, t, true);
      EngineAnswers(Settings(), NIFTY, t, true);
      CallAsks(Settings(), Now(), "copilot", Side.Api, t);
      hide EngineAnswer;
      hide OnStream;
      hide Valid;
      hide KeptSound;
      hide Reading;
      hide FreshPrice;
      hide LtpView;
      hide QuotesView;
      hide EngineView;
      hide CallView;
      hide Shares.Fit;
      hide Paced;
      hide Served;
      price := AnswerCopilot(t, count);
    }

    /** The sampled symbol as a page reads it; and below, as the engine and the Copilot do. */
    function PageRead(t: real): real
      reads this`quotes
    {
      Reading(walk, streamed, mode, quotes, NIFTY, t, true).value
    }

    function EngineRead(t: real): real {
      Reading(walk, streamed, mode, map[], NIFTY, t, true).value
    }

    /** A streamed symbol has one price everywhere. */
    lemma StreamedAgree(t: real)
      ensures mode == HubOn && NIFTY in streamed ==> PageRead(t) == EngineRead(t)
    {}

    /** What the four readers answer at this instant, without a call and without a trace. */
    method FourReads(t: real) returns (got: seq<real>)
      requires Valid() && t == now
      modifies this, api, worker, broker
      ensures got == [old(PageRead(t)), old(PageRead(t)), EngineRead(t), EngineRead(t)]
      ensures unchanged(this, api, worker, broker)
    {
      SymbolsKnown();
      hide MoveAt;
      hide PriceOf;
      hide SYMBOLS;
      hide LimitersValid;
      hide Balanced;
      hide Charge;
      hide Served;
      hide MarketValid;
      hide Reading;
      hide Held;
      hide OwnRead;
      hide Missing;
      hide Batched;
      hide KeptSound;
      var ltp := Ltp(NIFTY, t, "sample", false);
      var quotes := Quotes([NIFTY], t, false);
      var engine := EngineLtp(NIFTY, t, false);
      var copilot := CopilotQuote(t, false);
      assert NIFTY in Elements([NIFTY]);
      got := Present([ltp, quotes[NIFTY], engine, Some(copilot)]);
      SpreadOfFour(old(PageRead(t)), EngineRead(t));
    }

    /** One sample: the spread between the four readers; nothing else of the simulator changes. */
    method Sample(t: real)
      requires Valid() && t == now
      modifies this, api, worker, broker
      ensures Valid()
      ensures Now() == SampleView(Settings(), old(Now()), t)
      ensures unchanged(api, worker, broker) && unchanged(this`c, this`quotes, this`chain, this`attempts, this`now)
      ensures old(Agreed()) ==> Agreed()
    {
      StreamedAgree(t);
      SpreadOfFour(PageRead(t), EngineRead(t));
      hide LimitersValid;
      hide Balanced;
      hide MarketValid;
      hide Reading;
      hide KeptSound;
      hide Most;
      hide Least;
      var got := FourReads(t);
      var spread := if got == [] then 0.0 else Most(got) - Least(got);
      samples := samples + [spread];
      if spread < SAME_PRICE {
        agree := agree + 1;
      }
    }

    method Advance(t: real)
      requires Valid() && now <= t
      modifies this`now, market
      ensures Valid() && now == t
    {
      hide Windows.Valid;
      hide Balanced;
      hide Market.Valid;
      MoveAtGrows(now, t);
      hide MoveAt;
      market.Advance(t);
      now := t;
    }

    /**
    Neither the broker nor the worker's budget has refused anything, and the worker's last cycle was long enough before
    `next`.
    */
    ghost predicate Calm(next: real)
      reads this`c, worker
    {
      && (shares.Fit() ==> c.broker429 == 0 && Paced(worker.accepted) && Rested(worker.accepted, next))
      && (shares.CoversCycle() ==> c.refusedWorker == 0)
    }

    /** So many calls into a cycle at t. */
    ghost predicate InCycle(before: seq<real>, calls: nat, t: real)
      reads this`c, worker
    {
      && worker.accepted == before + Times(t, calls)
      && (shares.Fit() ==> c.broker429 == 0 && Paced(worker.accepted))
      && (shares.CoversCycle() ==> c.refusedWorker == 0)
    }

    /** One of the cycle's reads. */
    method CycleRead(s: string, t: real, ghost before: seq<real>, ghost calls: nat) returns (ghost more: nat)
      requires Valid() && t == now && s in SYMBOLS && InCycle(before, calls, t) && calls <= 2
      requires Grown(shares.Worker(), before, t) && (shares.Fit() ==> Paced(before) && Rested(before, t))
      modifies this`c, this`attempts, api, worker, broker
      ensures Now() == EngineView(Settings(), old(Now()), s, t)
      ensures Valid() && InCycle(before, more, t) && calls <= more <= calls + 1
    {
      hide SYMBOLS;
      hide LimitersValid;
      hide Balanced;
      hide Charge;
      hide Served;
      hide MarketValid;
      hide KeptSound;
      hide Paced;
      hide Rested;
      hide Grown;
      hide Reading;
      hide Tick;
      hide ReferenceOk;
      hide Shares.Fit;
      hide Shares.CoversCycle;
      hide Times;
      NextGranted(shares, before, calls, t);
      ghost var h := worker.accepted;
      var _ := EngineLtp(s, t, true);
      more := if worker.accepted == h then calls else calls + 1;
    }

    method WorkerCycle(t: real)
      requires Valid() && t == now && Calm(t)
      modifies this`c, this`attempts, api, worker, broker
      ensures Now() == CycleView(Settings(), old(Now()), [NIFTY] + POSITIONS, t)
      ensures Valid() && Calm(t + CYCLE)
    {
      SymbolsKnown();
      var names := [NIFTY] + POSITIONS;
      assert |names| == 3 && forall s | s in names :: s in SYMBOLS;
      ghost var before, calls: nat := worker.accepted, 0;
      Histories();
      hide SYMBOLS;
      hide LimitersValid;
      hide Balanced;
      hide MarketValid;
      hide KeptSound;
      hide Paced;
      hide Rested;
      hide Grown;
      hide Shares.Fit;
      hide Shares.CoversCycle;
      hide CycleView;
      hide EngineView;
      assert before + Times(t, 0) == before;
      ghost var start := Now();
      CycleNext(Settings(), start, names, 0, t);
      for i := 0 to |names|
        invariant Now() == CycleView(Settings(), start, names[..i], t)
        invariant Valid() && calls <= i && InCycle(before, calls, t)
      {
        calls := CycleRead(names[i], t, before, calls);
        CycleNext(Settings(), start, names, i, t);
      }
      CycleNext(Settings(), start, names, |names|, t);
      CycleOver();
    }

    lemma CycleOver()
      requires LimitersValid()
      ensures Rested(worker.accepted, now + CYCLE)
    {
      Histories();
    }

    lemma CalmLonger(a: real, b: real)
      requires Calm(a) && a <= b
      ensures Calm(b)
    {
      if shares.Fit() {
        RestedLonger(worker.accepted, a, b);
      }
    }

    /** The pages' polls that are due at t. */
    method DuePages(t: real, next: Schedule)
      requires Valid() && t == now && Calm(next.worker)
      modifies this`c, this`attempts, this`quotes, this`chain, api, worker, broker
      ensures Valid() && Calm(next.worker)
      ensures Now() == PagesView(Settings(), old(Now()), next, t)
    {
      SymbolsKnown();
      hide SYMBOLS;
      hide Watchlist;
      hide LimitersValid;
      hide Balanced;
      hide Charge;
      hide Served;
      hide MarketValid;
      hide KeptSound;
      hide Paced;
      hide Rested;
      hide Tick;
      hide PriceOf;
      hide OwnRead;
      hide Missing;
      hide Batched;
      hide Reading;
      hide FreshPrice;
      if t >= next.chart {
        var _ := Ltp(NIFTY, t, "chart", true);
      }
      if t >= next.watch {
        var _ := Quotes(Watchlist(), t, true);
      }
      if t >= next.chain {
        Chain(t, "option chain");
        var _ := Ltp(FUTURE, t, "option chain", true);
      }
    }

    /** The Copilot's question, when it is due. */
    method DueCopilot(t: real, next: Schedule)
      requires Valid() && t == now
      modifies this`c, this`attempts, this`chain, api, worker, broker
      ensures Now() == CopilotView(Settings(), old(Now()), next, t)
      ensures Valid() && forall due :: old(Calm(due)) ==> Calm(due)
    {
      hide LimitersValid;
      hide Balanced;
      hide Charge;
      hide Served;
      hide MarketValid;
      hide KeptSound;
      hide Paced;
      hide Rested;
      hide Tick;
      hide PriceOf;
      hide Reading;
      hide FreshPrice;
      if t >= next.copilot {
        var _ := CopilotQuote(t, true);
        Chain(t, "copilot");
      }
    }

    /** The worker's cycle, when it is due. */
    method DueWorker(t: real, next: Schedule)
      requires Valid() && t == now && Calm(next.worker) && next.worker > t - STEP
      modifies this`c, this`attempts, api, worker, broker
      ensures Now() == WorkerView(Settings(), old(Now()), next, t)
      ensures Valid() && Calm(Later(next, t).worker) && Later(next, t).worker > t
    {
      hide LimitersValid;
      hide Balanced;
      hide MarketValid;
      hide KeptSound;
      hide Calm;
      hide CycleView;
      if t >= next.worker {
        CalmLonger(next.worker, t);
        WorkerCycle(t);
        CalmLonger(t + CYCLE, next.worker + WORKER_CYCLE);
      }
    }

    /** A sample, when it is due. */
    method DueSample(t: real, next: Schedule)
      requires Valid() && t == now
      modifies this, api, worker, broker
      ensures Valid() && Now() == SampledView(Settings(), old(Now()), next, t)
      ensures unchanged(api, worker, broker) && unchanged(this`c, this`quotes, this`chain, this`attempts, this`now)
      ensures old(Agreed()) ==> Agreed()
    {
      hide LimitersValid;
      hide Balanced;
      hide MarketValid;
      hide KeptSound;
      hide SampleView;
      hide Agreed;
      if t >= next.sample {
        Sample(t);
      }
    }

    /** Everything due at t, in the order of the loop. */
    method Due(t: real, next: Schedule) returns (later: Schedule)
      requires Valid() && t == now && Calm(next.worker) && next.worker > t - STEP
      modifies this, api, worker, broker
      ensures Now() == DueView(Settings(), old(Now()), next, t) && later == Later(next, t)
      ensures Valid() && Calm(later.worker) && later.worker > t && now == old(now)
      ensures old(Agreed()) ==> Agreed()
    {
      hide Valid;
      hide PagesView;
      hide WorkerView;
      hide CopilotView;
      hide SampledView;
      DuePages(t, next);
      DueWorker(t, next);
      DueCopilot(t, next);
      DueSample(t, next);
      later := Later(next, t);
    }

    /** Every sample so far had one price everywhere, if the hub streams the sampled symbol. */
    ghost predicate Agreed()
      reads this`samples, this`agree
    {
      mode == HubOn && NIFTY in streamed ==> agree == |samples| && forall k | 0 <= k < |samples| :: samples[k] == 0.0
    }

    /** After i steps of a run that began in `start`. */
    ghost predicate Running(start: View, next: Schedule, i: nat)
      reads this, api, worker, broker
    {
      && next == NextDue(i) && Now() == RunView(Settings(), start, i)
      && Calm(next.worker) && Agreed() && now <= TimeOf(i) && next.worker > TimeOf(i) - STEP
    }

    method OneStep(i: nat, next: Schedule, ghost start: View) returns (later: Schedule)
      requires Valid() && Running(start, next, i)
      modifies this, market, api, worker, broker
      ensures Valid() && Running(start, later, i + 1)
    {
      RunNext(Settings(), start, i);
      TimesOfSteps(i);
      hide LimitersValid;
      hide Balanced;
      hide MarketValid;
      hide KeptSound;
      hide Calm;
      hide RunView;
      hide NextDue;
      hide DueView;
      hide Later;
      hide TimeOf;
      hide Agreed;
      var t := TimeOf(i);
      Advance(t);
      later := Due(t, next);
    }

    method Run(seconds: real)
      requires Valid() && AtStart()
      modifies this, market, api, worker, broker
      ensures Valid() && Now() == RunView(Settings(), old(Now()), Steps(seconds))
      ensures shares.Fit() ==> c.broker429 == 0
      ensures shares.CoversCycle() ==> c.refusedWorker == 0
      ensures Agreed()
    {
      var count, next := Steps(seconds), FIRST;
      ghost var start := Now();
      ShortPaced(worker.accepted);
      RunNext(Settings(), start, 0);
      TimesOfSteps(0);
      hide LimitersValid;
      hide Balanced;
      hide MarketValid;
      hide KeptSound;
      hide Paced;
      hide RunView;
      hide NextDue;
      hide TimeOf;
      hide Steps;
      for i := 0 to count
        invariant Valid() && Running(start, next, i)
      {
        next := OneStep(i, next, start);
      }
    }
  }

  /** The whole probe with the repository's limits: any prices, any streamed symbols, any length of run. */
  method Measure(mode: Mode, walk: Walk, streamed: set<string>, snapshotSeconds: real, seconds: real)
    returns (c: Counters, samples: seq<real>, agree: nat)
    ensures var d := Desk(mode, UPSTOX, walk, streamed, snapshotSeconds);
            var end := RunView(d, Opened(d), Steps(seconds));
            c == end.books.c && samples == end.samples && agree == end.agree
    ensures c.broker429 == 0 && c.refusedWorker == 0
    ensures Total(c.byConsumer) == c.api + c.worker
    ensures mode == HubOn && NIFTY in streamed
            ==> agree == |samples| && forall k | 0 <= k < |samples| :: samples[k] == 0.0
  {
    UpstoxFits();
    hide UPSTOX;
    hide Charge;
    hide Total;
    hide Sim.LimitersValid;
    hide Sim.MarketValid;
    hide Balanced;
    hide KeptSound;
    hide Shares.Fit;
    hide Shares.CoversCycle;
    var sim := new Sim(mode, walk, UPSTOX, streamed, snapshotSeconds);
    sim.Run(seconds);
    sim.Totals();
    c, samples, agree := sim.c, sim.samples, sim.agree;
  }
}
