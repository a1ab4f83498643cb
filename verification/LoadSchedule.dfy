/** When the load generator's processes start their users and their probe logins: one schedule, dealt out to shards. */
module LoadSchedule {
  function Distance(a: int, b: int): nat { if a >= b then a - b else b - a }

  /** The number of shards; fewer than one counts as one. */
  function AtLeastOne(shards: int): (n: nat)
    ensures n >= 1 && forall m | m >= 1 :: Distance(n, shards) <= Distance(m, shards)
  {
    if shards >= 1 then shards else 1
  }

  /** A shard number out of range counts as the nearest one. */
  function Clamped(shard: int, shards: int): (k: nat)
    ensures k < AtLeastOne(shards)
    ensures forall m | 0 <= m < AtLeastOne(shards) :: Distance(k, shard) <= Distance(m, shard)
  {
    if shard <= 0 then 0 else if shard < AtLeastOne(shards) then shard else AtLeastOne(shards) - 1
  }

  function Slot(every: real, s: int): real { every * s as real }

  /** One shard's probes: every shards-th slot from its own on, all that lie in the window. */
  predicate AreProbes(out: seq<real>, window: real, every: real, k: nat, n: nat) {
    && (forall j | 0 <= j < |out| :: out[j] == Slot(every, k + n * j) < window)
    && Slot(every, k + n * |out|) >= window
  }

  lemma SlotsGrow(every: real, a: int, b: int)
    requires every > 0.0 && a <= b
    ensures Slot(every, a) <= Slot(every, b) && (a < b ==> Slot(every, a) < Slot(every, b))
  {
    assert every * (b - a) as real == Slot(every, b) - Slot(every, a);
    if a < b {
      assert every * (b - a) as real > 0.0;
    }
  }

  /** Slots are apart: two slot numbers with one time are one number. */
  lemma SlotsApart(every: real, a: int, b: int)
    requires every > 0.0 && Slot(every, a) == Slot(every, b)
    ensures a == b
  {
    SlotsGrow(every, if a <= b then a else b, if a <= b then b else a);
  }

  /** No slot past this number lies in the window. */
  lemma SlotsEnd(every: real, window: real, s: int)
    requires every > 0.0 && s > (window / every).Floor
    ensures Slot(every, s) >= window
  {
    var q := window / every;
    assert every * q == window;
    assert s as real > q;
    assert every * (s as real - q) > 0.0;
  }

  lemma TimesAtLeast(n: nat, j: nat)
    requires n >= 1
    ensures n * j >= j
  {}

  /** `probe_offsets`. */
  method ProbeOffsets(window: real, every: real, shard: int, shards: int) returns (out: seq<real>)
    ensures every <= 0.0 || window <= 0.0 ==> out == []
    ensures every > 0.0 && window > 0.0 ==> AreProbes(out, window, every, Clamped(shard, shards), AtLeastOne(shards))
  {
    if every <= 0.0 || window <= 0.0 {
      return [];
    }
    var n, k := AtLeastOne(shards), Clamped(shard, shards);
    out := [];
    var j := 0;
    hide Slot;
    ghost var last := (window / every).Floor;
    while Slot(every, k + n * j) < window
      invariant j == |out| && forall i | 0 <= i < j :: out[i] == Slot(every, k + n * i) < window
      decreases last - j + 1
    {
      if j > last {
        TimesAtLeast(n, j);
        SlotsEnd(every, window, k + n * j);
        assert false;
      }
      out := out + [Slot(every, k + n * j)];
      j := j + 1;
    }
  }

  lemma TimesApart(n: nat, d: int)
    requires n >= 1
    ensures d >= 1 ==> n * d >= n
    ensures d <= -1 ==> n * d + n <= 0
  {}

  lemma TurnOf(k: nat, n: nat, j: nat)
    requires k < n
    ensures (k + n * j) / n == j && (k + n * j) % n == k
  {
    var q, r := (k + n * j) / n, (k + n * j) % n;
    assert k + n * j == n * q + r;
    assert n * (q - j) == k - r;
    TimesApart(n, q - j);
  }

  /** Dividing a slot number by the number of shards tells the shard and the turn. */
  lemma ShardAndTurn(s: nat, k: nat, n: nat, j: nat)
    requires k < n
    ensures s == k + n * j <==> k == s % n && j == s / n
  {
    TurnOf(k, n, j);
    assert s == n * (s / n) + s % n;
  }

  lemma WithinTurns(k: nat, n: nat, a: nat, b: nat)
    requires a <= b
    ensures k + n * a <= k + n * b
  {}

  /**
  The shards together probe at every slot of the window, each slot exactly once: slot s is the (s / shards)-th probe of
  shard s % shards, and no probe is anything else.
  */
  lemma ShardsPartition(window: real, every: real, n: nat, outs: seq<seq<real>>, s: nat)
    requires window > 0.0 && every > 0.0 && n >= 1 && |outs| == n
             && forall k | 0 <= k < n :: AreProbes(outs[k], window, every, k, n)
    ensures Slot(every, s) < window ==> s / n < |outs[s % n]| && outs[s % n][s / n] == Slot(every, s)
    ensures forall k, j | 0 <= k < n && 0 <= j < |outs[k]| :: outs[k][j] == Slot(every, s) ==> k == s % n && j == s / n
    ensures forall k, j | 0 <= k < n && 0 <= j < |outs[k]| :: 0.0 <= outs[k][j] < window
  {
    hide Slot;
    var k, j := s % n, s / n;
    ShardAndTurn(s, k, n, j);
    if Slot(every, s) < window && j >= |outs[k]| {
      WithinTurns(k, n, |outs[k]|, j);
      SlotsGrow(every, k + n * |outs[k]|, s);
    }
    forall k, j | 0 <= k < n && 0 <= j < |outs[k]|
      ensures outs[k][j] == Slot(every, s) ==> k == s % n && j == s / n
      ensures 0.0 <= outs[k][j] < window
    {
      if outs[k][j] == Slot(every, s) {
        SlotsApart(every, k + n * j, s);
        ShardAndTurn(s, k, n, j);
      }
      SlotsGrow(every, 0, k + n * j);
      SlotZero(every);
    }
  }

  lemma SlotZero(every: real)
    ensures Slot(every, 0) == 0.0
  {}

  // ---- how densely one process logs in ----

  predicate Spaced(out: seq<real>, gap: real) { forall j | 0 < j < |out| :: out[j] >= out[j - 1] + gap }

  lemma ProbesSpaced(out: seq<real>, window: real, every: real, k: nat, n: nat)
    requires AreProbes(out, window, every, k, n)
    ensures Spaced(out, Slot(every, n))
  {
    hide Slot;
    forall j | 0 < j < |out|
      ensures out[j] >= out[j - 1] + Slot(every, n)
    {
      SlotsAdd(every, k + n * (j - 1), n);
      assert k + n * (j - 1) + n == k + n * j;
    }
  }

  lemma SlotsAdd(every: real, a: int, b: int)
    ensures Slot(every, a + b) == Slot(every, a) + Slot(every, b)
  {}

  /** How many of the times lie in [lo, hi). */
  function CountFrom(out: seq<real>, lo: real, hi: real): nat {
    if out == [] then 0
    else CountFrom(out[..|out| - 1], lo, hi) + if lo <= out[|out| - 1] < hi then 1 else 0
  }

  lemma {:induction false} NoneBefore(out: seq<real>, lo: real, hi: real)
    requires forall j | 0 <= j < |out| :: out[j] < lo
    ensures CountFrom(out, lo, hi) == 0
  {
    if out != [] {
      NoneBefore(out[..|out| - 1], lo, hi);
    }
  }

  lemma {:induction false} SpacedSorted(out: seq<real>, gap: real)
    requires Spaced(out, gap) && gap > 0.0
    ensures forall j | 0 <= j < |out| :: out[j] <= out[|out| - 1]
  {
    if |out| > 1 {
      SpacedSorted(out[..|out| - 1], gap);
    }
  }

  function Steps(c: int, gap: real): real { c as real * gap }

  lemma OneStepMore(c: int, gap: real)
    ensures Steps(c, gap) == Steps(c - 1, gap) + gap && Steps(0, gap) == 0.0
  {}

  /** The last of the times in the interval is at least so far from its start. */
  lemma {:induction false} LastIsFar(out: seq<real>, gap: real, lo: real, hi: real)
    requires Spaced(out, gap) && gap > 0.0 && out != [] && lo <= out[|out| - 1] < hi
    ensures CountFrom(out, lo, hi) >= 1 && out[|out| - 1] >= lo + Steps(CountFrom(out, lo, hi) - 1, gap)
  {
    hide Steps;
    var front := out[..|out| - 1];
    OneStepMore(0, gap);
    if front != [] && front[|front| - 1] >= lo {
      LastIsFar(front, gap, lo, hi);
      OneStepMore(CountFrom(front, lo, hi), gap);
    } else {
      SpacedSorted(front, gap);
      NoneBefore(front, lo, hi);
    }
  }

  lemma {:induction false} SpacedCount(out: seq<real>, gap: real, lo: real, hi: real)
    requires Spaced(out, gap) && gap > 0.0
    ensures CountFrom(out, lo, hi) == 0 || Steps(CountFrom(out, lo, hi) - 1, gap) < hi - lo
  {
    if out != [] {
      if lo <= out[|out| - 1] < hi {
        LastIsFar(out, gap, lo, hi);
      } else {
        SpacedCount(out[..|out| - 1], gap, lo, hi);
      }
    }
  }

  function Ceil(x: real): int { -(-x).Floor }

  lemma StepsReach(c: int, gap: real, w: real)
    requires gap > 0.0
    ensures c as real >= w / gap ==> Steps(c, gap) >= w
  {
    var q := w / gap;
    assert gap * q == w;
    assert gap * (c as real - q) == Steps(c, gap) - w;
  }

  lemma BelowCeil(c: int, gap: real, w: real)
    requires gap > 0.0 && Steps(c - 1, gap) < w
    ensures c <= Ceil(w / gap)
  {
    StepsReach(c - 1, gap, w);
    assert (-(w / gap)).Floor as real <= -(w / gap);
  }

  /** Any half-open interval holds at most ceil(length / (every x shards)) of one process's probe logins. */
  lemma OneShardsRate(out: seq<real>, window: real, every: real, k: nat, n: nat, lo: real, length: real)
    requires every > 0.0 && n >= 1 && length > 0.0 && AreProbes(out, window, every, k, n)
    ensures Slot(every, n) > 0.0 && CountFrom(out, lo, lo + length) <= Ceil(length / Slot(every, n))
  {
    hide Slot;
    hide Steps;
    SlotsGrow(every, 0, n);
    SlotZero(every);
    ProbesSpaced(out, window, every, k, n);
    SpacedCount(out, Slot(every, n), lo, lo + length);
    CeilPositive(length, Slot(every, n));
    if CountFrom(out, lo, lo + length) > 0 {
      BelowCeil(CountFrom(out, lo, lo + length), Slot(every, n), length);
    }
  }

  lemma CeilPositive(w: real, gap: real)
    requires w > 0.0 && gap > 0.0
    ensures Ceil(w / gap) >= 0
  {
    assert gap * (w / gap) == w;
    assert w / gap >= 0.0;
  }

  /** The profile in the repository: a login every two seconds over 25 addresses is at most two a minute for each. */
  lemma TwoAMinute(out: seq<real>, window: real, k: nat, lo: real)
    requires AreProbes(out, window, 2.0, k, 25)
    ensures CountFrom(out, lo, lo + 60.0) <= 2
  {
    OneShardsRate(out, window, 2.0, k, 25, lo, 60.0);
  }

  // ---- the ramp ----

  /** When user i of shard k starts. */
  function StartOf(ramp: real, users: nat, n: nat, k: nat, i: nat): real
    requires users >= 1 && n >= 1
  {
    ramp * (i as real + k as real / n as real) / users as real
  }

  /** Point s of an even grid over the ramp. */
  function GridPoint(ramp: real, points: nat, s: nat): real
    requires points >= 1
  {
    ramp * s as real / points as real
  }

  /** `start_offsets`. */
  function StartOffsets(users: int, ramp: real, shard: int, shards: int): (starts: seq<real>)
    ensures users <= 0 ==> starts == []
    ensures users >= 0 ==> |starts| == users
  {
    seq(if users > 0 then users else 0,
        i requires 0 <= i => StartOf(ramp, AtLeastOne(users), AtLeastOne(shards), Clamped(shard, shards), i))
  }

  lemma SameQuotient(a: real, b: real, c: real, d: real)
    requires b > 0.0 && d > 0.0 && a * d == c * b
    ensures a / b == c / d
  {
    var x, y := a / b, c / d;
    assert x * b == a && y * d == c;
    assert (x - y) * (b * d) == 0.0;
    assert b * d > 0.0;
  }

  lemma Positive(a: nat, b: nat)
    requires a >= 1 && b >= 1
    ensures a * b >= 1
  {}

  lemma StartIsGridPoint(ramp: real, users: nat, n: nat, k: nat, i: nat)
    requires users >= 1 && n >= 1
    ensures users * n >= 1 && StartOf(ramp, users, n, k, i) == GridPoint(ramp, users * n, k + n * i)
  {
    Positive(users, n);
    var x := i as real + k as real / n as real;
    assert x * n as real == i as real * n as real + k as real;
    assert (k + n * i) as real == x * n as real;
    var u, m := users as real, n as real;
    assert (users * n) as real == u * m;
    assert (ramp * x) * (u * m) == (ramp * (x * m)) * u;
    SameQuotient(ramp * x, u, ramp * (x * m), u * m);
  }

  lemma StartAt(users: int, ramp: real, n: nat, k: nat, i: nat)
    requires users >= 1 && n >= 1 && k < n && i < users
    ensures |StartOffsets(users, ramp, k, n)| == users
            && StartOffsets(users, ramp, k, n)[i] == StartOf(ramp, users, n, k, i)
  {}

  /** All shards' starts lie on one even grid over the ramp and cover it, each point once. */
  lemma StartsPartition(users: int, ramp: real, n: nat, s: nat)
    requires users >= 1 && n >= 1 && s < users * n
    ensures s / n < |StartOffsets(users, ramp, s % n, n)|
    ensures StartOffsets(users, ramp, s % n, n)[s / n] == GridPoint(ramp, users * n, s)
  {
    TurnsOf(users, n, s);
    StartAt(users, ramp, n, s % n, s / n);
    hide StartOf;
    hide GridPoint;
    hide StartOffsets;
    ShardAndTurn(s, s % n, n, s / n);
    StartIsGridPoint(ramp, users, n, s % n, s / n);
  }

  lemma TurnsOf(users: nat, n: nat, s: nat)
    requires n >= 1 && s < users * n
    ensures s / n < users
  {
    TimesApart(n, s / n - users + 1);
    assert s == n * (s / n) + s % n;
    assert n * (s / n - users + 1) == n * (s / n) - users * n + n;
  }

  /** And every start of a shard is such a point, different for each shard and user. */
  lemma StartsOnGrid(users: int, ramp: real, n: nat, k: nat, i: nat)
    requires users >= 1 && n >= 1 && k < n && i < |StartOffsets(users, ramp, k, n)|
    ensures k + n * i < users * n && (k + n * i) % n == k && (k + n * i) / n == i
    ensures StartOffsets(users, ramp, k, n)[i] == GridPoint(ramp, users * n, k + n * i)
  {
    StartAt(users, ramp, n, k, i);
    hide StartOf;
    hide GridPoint;
    hide StartOffsets;
    TurnOf(k, n, i);
    StartIsGridPoint(ramp, users, n, k, i);
    WithinTurns(0, n, i, users - 1);
    assert n * (users - 1) == users * n - n;
  }
}
