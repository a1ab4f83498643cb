/**
The synthetic market of the hub probe: one bounded history of moves a symbol, read back in time.  The random walk itself
is arbitrary: a price for every symbol and every number of moves.
*/
module HubMarket {
  import opened Sequences

  type Walk = (string, nat) -> real

  type History = seq<(real, real)>

  const TICK_EVERY := 0.25
  const EPSILON := 0.000000001
  const MAX_MOVES := 4000

  /** The number of the last move that has happened by t, were the market open for ever: negative before the first. */
  function MoveAt(t: real): int { ((t + EPSILON) * 4.0).Floor }

  /** The market price at an instant, with no history kept: what `at` is meant to say. */
  function PriceOf(walk: Walk, symbol: string, t: real): real {
    walk(symbol, if MoveAt(t) >= 0 then MoveAt(t) else 0)
  }

  /** A deque with a maximum length. */
  function Append(q: History, x: (real, real)): History {
    (if |q| < MAX_MOVES then q else q[|q| - MAX_MOVES + 1..]) + [x]
  }

  function Oldest(moves: nat): nat { if moves < MAX_MOVES then 0 else moves - MAX_MOVES + 1 }

  /** The history after so many moves. */
  function Retained(walk: Walk, symbol: string, moves: nat): History {
    seq(moves - Oldest(moves) + 1,
        i requires 0 <= i => ((Oldest(moves) + i) as real * TICK_EVERY, walk(symbol, Oldest(moves) + i)))
  }

  lemma RetainedNext(walk: Walk, symbol: string, moves: nat)
    ensures Append(Retained(walk, symbol, moves), ((moves + 1) as real * TICK_EVERY, walk(symbol, moves + 1)))
            == Retained(walk, symbol, moves + 1)
  {}

  lemma MoveIsPast(move: int, t: real)
    ensures move as real * TICK_EVERY <= t + EPSILON <==> move <= MoveAt(t)
  {
    var x := (t + EPSILON) * 4.0;
    assert move as real * TICK_EVERY <= t + EPSILON <==> move as real <= x;
    assert x.Floor as real <= x < (x.Floor + 1) as real;
  }

  /** The kept history still holds the move that was the newest at t. */
  predicate Keeps(moves: nat, t: real) {
    MoveAt(t) <= moves && (Oldest(moves) == 0 || Oldest(moves) <= MoveAt(t))
  }

  /** One stream latency back is never forgotten. */
  lemma KeepsRecent(moves: nat, t: real, back: real)
    requires moves == MoveAt(t) && 0.0 <= back <= 900.0
    ensures Keeps(moves, t) && Keeps(moves, t - back)
  {
    var x, y := (t + EPSILON) * 4.0, (t - back + EPSILON) * 4.0;
    assert x - 3600.0 <= y <= x;
    assert x.Floor as real <= x < (x.Floor + 1) as real;
    assert y.Floor as real <= y < (y.Floor + 1) as real;
  }

  class Market {
    const walk: Walk
    const symbols: seq<string>
    var t: real
    var history: map<string, History>
    var moves: nat    // how far the random walk has got

    ghost predicate Valid()
      reads this
    {
      && Distinct(symbols) && t == moves as real * TICK_EVERY && history.Keys == (set s | s in symbols)
      && forall s | s in symbols :: history[s] == Retained(walk, s, moves)
    }

    constructor (walk: Walk, symbols: seq<string>)
      requires Distinct(symbols)
      ensures Valid() && this.walk == walk && this.symbols == symbols && moves == 0
    {
      this.walk, this.symbols := walk, symbols;
      t, moves := 0.0, 0;
      history := map s | s in symbols :: [(0.0, walk(s, 0))];
    }

    /** All the moves up to t, none after. */
    method Advance(until: real)
      requires Valid()
      modifies this
      ensures Valid() && moves == if MoveAt(until) > old(moves) then MoveAt(until) else old(moves)
    {
      MoveIsPast(moves + 1, until);
      while t + TICK_EVERY <= until + EPSILON
        invariant moves == old(moves) || old(moves) < moves <= MoveAt(until)
        invariant Valid()
        invariant t + TICK_EVERY <= until + EPSILON <==> moves + 1 <= MoveAt(until)
        decreases MoveAt(until) - moves
      {
        Move();
        MoveIsPast(moves + 1, until);
      }
    }

    /** One move of every symbol. */
    method Move()
      requires Valid()
      modifies this
      ensures Valid() && moves == old(moves) + 1
    {
      hide Retained;
      hide Append;
      ghost var before := moves;
      t := t + TICK_EVERY;
      moves := moves + 1;
      for i := 0 to |symbols|
        invariant moves == before + 1 && t == moves as real * TICK_EVERY
        invariant history.Keys == set s | s in symbols
        invariant forall k | 0 <= k < i :: history[symbols[k]] == Retained(walk, symbols[k], before + 1)
        invariant forall k | i <= k < |symbols| :: history[symbols[k]] == Retained(walk, symbols[k], before)
      {
        RetainedNext(walk, symbols[i], before);
        history := history[symbols[i] := Append(history[symbols[i]], (t, walk(symbols[i], moves)))];
      }
    }

    /** The price as of t; where the history no longer reaches back to t, its oldest entry. */
    method At(symbol: string, t: real) returns (price: real)
      requires Valid() && symbol in symbols
      ensures price == walk(symbol,
                            if MoveAt(t) < Oldest(moves) then Oldest(moves)
                            else if MoveAt(t) > moves then moves
                            else MoveAt(t))
      ensures Keeps(moves, t) ==> price == PriceOf(walk, symbol, t)
    {
      var q := history[symbol];
      var i := |q|;
      while i > 0
        invariant 0 <= i <= |q|
        invariant i == |q| || MoveAt(t) < Oldest(moves) + i
      {
        i := i - 1;
        MoveIsPast(Oldest(moves) + i, t);
        if q[i].0 <= t + EPSILON {
          return q[i].1;
        }
      }
      price := q[0].1;
    }
  }
}
