/**
The rate limiter of the hub probe: sliding windows and a token bucket that is refilled when it is looked at.

`Step` is one call of `take` on a value state, branch for branch; the class `Windows` (HubWindows.dfy) is the
object the probe updates in place and is proved against `Step`.  `ReferenceOk` is the independent definition: it never
purges a queue and never stores a token count, it reads the whole history of accepted calls.
*/
module HubLimiter {
  import opened Wrappers

  datatype Window = Window(seconds: real, limit: int)

  datatype Config = Config(windows: seq<Window>, rate: Option<real>, capacity: Option<real>) {
    predicate HasBucket() { rate.Some? && capacity.Some? }

    /** Refilling never takes tokens away. */
    predicate NeverDrains() { HasBucket() ==> rate.value >= 0.0 }
  }

  datatype State = State(calls: map<real, seq<real>>, tokens: Option<real>, at: real)

  const INITIAL := State(map[], None, 0.0)

  function Min(a: real, b: real): real { if a <= b then a else b }

  function Refill(cap: real, rate: real, tokens: real, elapsed: real): real {
    Min(cap, tokens + elapsed * rate)
  }

  function Queue(calls: map<real, seq<real>>, seconds: real): seq<real> {
    if seconds in calls then calls[seconds] else []
  }

  /** What is left once the front has been dropped as long as it is not after the cutoff. */
  function Purged(q: seq<real>, cutoff: real): seq<real> {
    if |q| > 0 && q[0] <= cutoff then Purged(q[1..], cutoff) else q
  }

  /** The window loop from window i on: purge, then refuse at the first full window. */
  function Admit(ws: seq<Window>, i: nat, calls: map<real, seq<real>>, t: real): (bool, map<real, seq<real>>)
    requires i <= |ws|
    decreases |ws| - i
  {
    if i == |ws| then (true, calls)
    else
      var q := Purged(Queue(calls, ws[i].seconds), t - ws[i].seconds);
      var purged := calls[ws[i].seconds := q];
      if |q| + 1 > ws[i].limit then (false, purged) else Admit(ws, i + 1, purged, t)
  }

  /** The second loop: the accepted call enters the queue of every window. */
  function Record(ws: seq<Window>, i: nat, calls: map<real, seq<real>>, t: real): map<real, seq<real>>
    requires i <= |ws|
    decreases |ws| - i
  {
    if i == |ws| then calls
    else Record(ws, i + 1, calls[ws[i].seconds := Queue(calls, ws[i].seconds) + [t]], t)
  }

  /** The bucket's content at time t, before the call takes its token. */
  function Refilled(cfg: Config, st: State, t: real): real
    requires cfg.HasBucket()
  {
    if st.tokens.None? then cfg.capacity.value
    else Refill(cfg.capacity.value, cfg.rate.value, st.tokens.value, t - st.at)
  }

  function Step(cfg: Config, st: State, t: real): (State, bool) {
    var (room, calls) := Admit(cfg.windows, 0, st.calls, t);
    if !room then (st.(calls := calls), false)
    else if !cfg.HasBucket() then (st.(calls := Record(cfg.windows, 0, calls, t)), true)
    else
      var tokens := Refilled(cfg, st, t);
      if tokens < 1.0 then (State(calls, Some(tokens), t), false)
      else (State(Record(cfg.windows, 0, calls, t), Some(tokens - 1.0), t), true)
  }

  function Run(cfg: Config, st: State, ts: seq<real>): (State, seq<bool>)
    decreases |ts|
  {
    if ts == [] then (st, [])
    else
      var (next, ok) := Step(cfg, st, ts[0]);
      var (end, oks) := Run(cfg, next, ts[1..]);
      (end, [ok] + oks)
  }

  // ---- the reference: answers computed from the full history of accepted calls ----

  /** The calls later than `cutoff`, in order. */
  function After(h: seq<real>, cutoff: real): seq<real> {
    if h == [] then []
    else
      var rest := After(h[..|h| - 1], cutoff);
      if h[|h| - 1] > cutoff then rest + [h[|h| - 1]] else rest
  }

  /** How many of the windows have this length: their calls share one queue. */
  function Mult(ws: seq<Window>, i: nat, seconds: real): nat
    requires i <= |ws|
    decreases |ws| - i
  {
    if i == |ws| then 0 else (if ws[i].seconds == seconds then 1 else 0) + Mult(ws, i + 1, seconds)
  }

  /** The bucket's content at t as a function of the accepted calls only. */
  function Level(cfg: Config, h: seq<real>, t: real): real
    requires cfg.HasBucket()
    decreases |h|
  {
    if h == [] then cfg.capacity.value
    else
      var last := h[|h| - 1];
      Refill(cfg.capacity.value, cfg.rate.value, Level(cfg, h[..|h| - 1], last) - 1.0, t - last)
  }

  predicate WindowRoom(cfg: Config, h: seq<real>, t: real, i: nat)
    requires i < |cfg.windows|
  {
    var w := cfg.windows[i];
    Mult(cfg.windows, 0, w.seconds) * |After(h, t - w.seconds)| + 1 <= w.limit
  }

  predicate ReferenceOk(cfg: Config, h: seq<real>, t: real) {
    && (forall i | 0 <= i < |cfg.windows| :: WindowRoom(cfg, h, t, i))
    && (cfg.HasBucket() ==> Level(cfg, h, t) >= 1.0)
  }

  function ReferenceAnswers(cfg: Config, h: seq<real>, ts: seq<real>): seq<bool>
    decreases |ts|
  {
    if ts == [] then []
    else
      var ok := ReferenceOk(cfg, h, ts[0]);
      [ok] + ReferenceAnswers(cfg, if ok then h + [ts[0]] else h, ts[1..])
  }

  function ReferenceHistory(cfg: Config, h: seq<real>, ts: seq<real>): seq<real>
    decreases |ts|
  {
    if ts == [] then h
    else ReferenceHistory(cfg, if ReferenceOk(cfg, h, ts[0]) then h + [ts[0]] else h, ts[1..])
  }

  predicate Sorted(ts: seq<real>) { forall i, j | 0 <= i < j < |ts| :: ts[i] <= ts[j] }

  predicate NotBefore(ts: seq<real>, now: real) { forall i | 0 <= i < |ts| :: now <= ts[i] }

  // ---- the invariant that ties a state to the history behind it ----

  function Times(t: real, n: nat): seq<real> { if n == 0 then [] else Times(t, n - 1) + [t] }

  function Repeated(h: seq<real>, m: nat): seq<real> {
    if h == [] then [] else Repeated(h[..|h| - 1], m) + Times(h[|h| - 1], m)
  }

  /** A queue holds exactly the accepted calls that are still live at `now` (behind what the next purge drops). */
  ghost predicate QueueExact(cfg: Config, h: seq<real>, calls: map<real, seq<real>>, now: real, i: nat)
    requires i < |cfg.windows|
  {
    var s := cfg.windows[i].seconds;
    Purged(Queue(calls, s), now - s) == Repeated(After(h, now - s), Mult(cfg.windows, 0, s))
  }

  ghost predicate QueuesExact(cfg: Config, h: seq<real>, calls: map<real, seq<real>>, now: real) {
    forall i | 0 <= i < |cfg.windows| :: QueueExact(cfg, h, calls, now, i)
  }

  ghost predicate BucketExact(cfg: Config, h: seq<real>, st: State, now: real) {
    cfg.HasBucket() ==>
      && (st.tokens.None? ==> h == [])
      && (forall t | t >= now :: Refilled(cfg, st, t) == Level(cfg, h, t))
  }

  ghost predicate Inv(cfg: Config, h: seq<real>, st: State, now: real) {
    && Sorted(h)
    && (forall k | 0 <= k < |h| :: h[k] <= now)
    && QueuesExact(cfg, h, st.calls, now)
    && BucketExact(cfg, h, st, now)
  }
}
