/** The limiter object of the hub probe, updated in place. */
module HubWindows {
  import opened Wrappers
  import opened HubLimiter
  import opened HubLimiterInvariant
  import opened HubLimiterBounds

  class Windows {
    const cfg: Config
    var calls: map<real, seq<real>>
    var tokens: Option<real>
    var at: real
    ghost var accepted: seq<real>   // every call accepted so far
    ghost var now: real             // the time of the newest call

    function Value(): State
      reads this
    {
      State(calls, tokens, at)
    }

    ghost predicate Valid()
      reads this
    {
      cfg.NeverDrains() && Inv(cfg, accepted, Value(), now) && Admissible(cfg, accepted)
    }

    constructor (cfg: Config, ghost start: real)
      ensures this.cfg == cfg && Value() == INITIAL && accepted == [] && now == start
      ensures cfg.NeverDrains() ==> Valid()
    {
      this.cfg := cfg;
      calls, tokens, at := map[], None, 0.0;
      accepted, now := [], start;
      new;
      if cfg.NeverDrains() {
        StartsExact(cfg, start);
      }
    }

    method Take(t: real) returns (ok: bool)
      modifies this
      ensures (Value(), ok) == Step(cfg, old(Value()), t)
      ensures now == t && accepted == if ok then old(accepted) + [t] else old(accepted)
      ensures old(Valid()) && old(now) <= t ==> Valid() && ok == ReferenceOk(cfg, old(accepted), t)
    {
      ghost var before, history, last, valid := Value(), accepted, now, Valid();
      ok := true;
      var i := 0;
      while i < |cfg.windows| && ok
        invariant 0 <= i <= |cfg.windows|
        invariant tokens == before.tokens && at == before.at && accepted == history
        invariant Admit(cfg.windows, 0, before.calls, t)
                  == if ok then Admit(cfg.windows, i, calls, t) else (false, calls)
        decreases |cfg.windows| - i, ok
      {
        var w := cfg.windows[i];
        var q := Queue(calls, w.seconds);
        ghost var whole := q;
        while |q| > 0 && q[0] <= t - w.seconds
          invariant Purged(q, t - w.seconds) == Purged(whole, t - w.seconds)
        {
          q := q[1..];
        }
        calls := calls[w.seconds := q];
        if |q| + 1 > w.limit {
          ok := false;
        } else {
          i := i + 1;
        }
      }
      if ok && cfg.HasBucket() {
        var level := if tokens.None? then cfg.capacity.value
                     else Refill(cfg.capacity.value, cfg.rate.value, tokens.value, t - at);
        at := t;
        if level < 1.0 {
          tokens := Some(level);
          ok := false;
        } else {
          tokens := Some(level - 1.0);
        }
      }
      if ok {
        ghost var purged := calls;
        i := 0;
        while i < |cfg.windows|
          invariant 0 <= i <= |cfg.windows|
          invariant Record(cfg.windows, 0, purged, t) == Record(cfg.windows, i, calls, t)
          invariant State(purged, tokens, at) == State(purged, Step(cfg, before, t).0.tokens, Step(cfg, before, t).0.at)
          invariant accepted == history
        {
          var s := cfg.windows[i].seconds;
          calls := calls[s := Queue(calls, s) + [t]];
          i := i + 1;
        }
        accepted := accepted + [t];
      }
      now := t;
      if valid && last <= t {
        StepExact(cfg, history, before, last, t);
        assert ok ==> accepted[..|history|] == history;
        forall k | 0 <= k < |accepted|
          ensures ReferenceOk(cfg, accepted[..k], accepted[k])
        {
          assert accepted[..k] == history[..k];
        }
      }
    }
  }
}
