/** Two scrapes of the API's counters turned into what happened between them: deltas, merged histograms, quantiles. */
module MetricsHistogram {
  import opened Wrappers

  type Labels = map<string, string>

  datatype Key = Key(name: string, labels: Labels)

  // ---- one counter between two scrapes ----

  function Before(before: map<Key, real>, k: Key): real { if k in before then before[k] else 0.0 }

  function Change(before: real, after: real): real { if after >= before then after - before else after }

  /** `delta`. */
  function Delta(before: map<Key, real>, after: map<Key, real>): map<Key, real> {
    map k | k in after :: Change(Before(before, k), after[k])
  }

  /** What can happen to a counter: it counts, or its process restarts. */
  datatype Event = Counted(amount: real) | Restarted

  predicate Counting(es: seq<Event>) { forall e | e in es && e.Counted? :: e.amount >= 0.0 }

  function Value(start: real, es: seq<Event>): real {
    if es == [] then start
    else
      match es[|es| - 1]
      case Counted(amount) => Value(start, es[..|es| - 1]) + amount
      case Restarted => 0.0
  }

  /** Everything counted, seen or lost. */
  function TrueIncrease(es: seq<Event>): real {
    if es == [] then 0.0
    else TrueIncrease(es[..|es| - 1]) + if es[|es| - 1].Counted? then es[|es| - 1].amount else 0.0
  }

  /** What was counted and then lost in a restart. */
  function Lost(es: seq<Event>): real {
    if es == [] then 0.0
    else if es[|es| - 1].Restarted? then TrueIncrease(es)
    else Lost(es[..|es| - 1])
  }

  lemma {:induction false} ValueIs(start: real, es: seq<Event>)
    requires Counting(es) && start >= 0.0
    ensures 0.0 <= Lost(es) <= TrueIncrease(es)
    ensures Restarted !in es ==> Lost(es) == 0.0 && Value(start, es) == start + TrueIncrease(es)
    ensures Restarted in es ==> Value(start, es) == TrueIncrease(es) - Lost(es)
  {
    if es != [] {
      var front, last := es[..|es| - 1], es[|es| - 1];
      assert es == front + [last];
      ValueIs(start, front);
    }
  }

  /**
  Over any run of a counter the delta is never negative and never more than what was counted.  It is exact if and only
  if the process did not restart, or lost nothing in its restarts and has not caught up with its old value since (or
  had none).
  */
  lemma DeltaOfRun(start: real, es: seq<Event>)
    requires Counting(es) && start >= 0.0
    ensures 0.0 <= Change(start, Value(start, es)) <= TrueIncrease(es)
    ensures Change(start, Value(start, es)) == TrueIncrease(es) <==>
              Restarted !in es || (Lost(es) == 0.0 && (Value(start, es) < start || start == 0.0))
  {
    ValueIs(start, es);
  }

  /** What two scrapes show of all the counters at once. */
  lemma DeltaOfScrapes(before: map<Key, real>, after: map<Key, real>, runs: map<Key, seq<Event>>)
    requires forall k | k in after :: k in runs && Counting(runs[k]) && Before(before, k) >= 0.0
               && after[k] == Value(Before(before, k), runs[k])
    ensures Delta(before, after).Keys == after.Keys
    ensures forall k | k in after ::
              && 0.0 <= Delta(before, after)[k] <= TrueIncrease(runs[k])
              && (Restarted !in runs[k] ==> Delta(before, after)[k] == TrueIncrease(runs[k]))
  {
    forall k | k in after
      ensures 0.0 <= Delta(before, after)[k] <= TrueIncrease(runs[k])
      ensures Restarted !in runs[k] ==> Delta(before, after)[k] == TrueIncrease(runs[k])
    {
      DeltaOfRun(Before(before, k), runs[k]);
    }
  }

  /** A restarted counter that has passed its old value is taken for one that went on: the count before is missing. */
  lemma RestartCaughtUp()
    ensures var es := [Restarted, Counted(7.0)];
            Change(5.0, Value(5.0, es)) == 2.0 && TrueIncrease(es) == 7.0
  {
    var es := [Restarted, Counted(7.0)];
    assert es[..1] == [Restarted] && es[..1][..0] == [];
  }

  // ---- sums over label sets ----

  ghost function Sum(d: map<Key, real>, keys: set<Key>): real
    requires keys <= d.Keys
  {
    if keys == {} then 0.0
    else
      var k :| k in keys;
      d[k] + Sum(d, keys - {k})
  }

  lemma {:induction false} SumWithout(d: map<Key, real>, keys: set<Key>, k: Key)
    requires keys <= d.Keys && k in keys
    ensures Sum(d, keys) == d[k] + Sum(d, keys - {k})
  {
    var first :| first in keys && Sum(d, keys) == d[first] + Sum(d, keys - {first});
    if first != k {
      SumWithout(d, keys - {first}, k);
      SumWithout(d, keys - {k}, first);
      assert keys - {first} - {k} == keys - {k} - {first};
    }
  }

  lemma SumWith(d: map<Key, real>, keys: set<Key>, k: Key)
    requires keys <= d.Keys && k in d && k !in keys
    ensures Sum(d, keys + {k}) == Sum(d, keys) + d[k]
  {
    SumWithout(d, keys + {k}, k);
    assert keys + {k} - {k} == keys;
  }

  // ---- histograms ----

  /** A bucket's upper bound. */
  datatype Bound = Finite(value: real) | Infinite

  predicate Below(a: Bound, b: Bound) { a.Finite? && (b.Infinite? || a.value < b.value) }

  predicate Wanted(k: Key, route: string) {
    route == "" || ("route" in k.labels && k.labels["route"] == route)
  }

  function BoundOf(parse: string -> real, k: Key): Bound {
    var le := if "le" in k.labels then k.labels["le"] else "+Inf";
    if le == "+Inf" then Infinite else Finite(parse(le))
  }

  function Series(d: map<Key, real>, name: string, route: string): set<Key> {
    set k | k in d && k.name == name && Wanted(k, route)
  }

  function BucketsAt(d: map<Key, real>, parse: string -> real, name: string, route: string, b: Bound): set<Key> {
    set k | k in Series(d, name, route) && BoundOf(parse, k) == b
  }

  /** Cumulative buckets, by rising bound. */
  predicate Ascending(buckets: seq<(Bound, real)>) {
    forall i, j | 0 <= i < j < |buckets| :: Below(buckets[i].0, buckets[j].0)
  }

  function Bounds(buckets: seq<(Bound, real)>): set<Bound> { set i | 0 <= i < |buckets| :: buckets[i].0 }

  /** The buckets are the map's entries in order. */
  ghost predicate AreItems(buckets: seq<(Bound, real)>, m: map<Bound, real>) {
    && Ascending(buckets) && Bounds(buckets) == m.Keys
    && (forall x | x in buckets :: x.0 in m && m[x.0] == x.1)
  }

  /** One bucket a bound, each the sum over all label sets. */
  ghost predicate Merged(d: map<Key, real>, parse: string -> real, name: string, route: string, m: map<Bound, real>) {
    && (forall b :: b in m <==> BucketsAt(d, parse, name, route, b) != {})
    && (forall b | b in m :: m[b] == Sum(d, BucketsAt(d, parse, name, route, b)))
  }

  lemma {:induction false} SumSame(d: map<Key, real>, e: map<Key, real>, keys: set<Key>)
    requires keys <= d.Keys && keys <= e.Keys && forall k | k in keys :: d[k] == e[k]
    ensures Sum(d, keys) == Sum(e, keys)
  {
    if keys != {} {
      var k :| k in keys;
      SumWithout(d, keys, k);
      SumWithout(e, keys, k);
      SumSame(d, e, keys - {k});
    }
  }

  /** The series of the name whose own label is this route. */
  predicate OfRoute(k: Key, name: string, route: string) {
    k.name == name && "route" in k.labels && k.labels["route"] == route
  }

  /** The label `le` of a series reads as this bound; without one, and for "+Inf", it is the infinite one. */
  predicate AtBound(parse: string -> real, k: Key, b: Bound) {
    if "le" in k.labels && k.labels["le"] != "+Inf" then b == Finite(parse(k.labels["le"])) else b == Infinite
  }

  /**
  The series of a name and a route are all those of that name with that route and no others, whatever the rest of the
  scrape holds; an empty route means all. So series of other routes never change a route's sum or its histogram.
  */
  lemma OtherRoutes(d: map<Key, real>, e: map<Key, real>, parse: string -> real, name: string, route: string,
                    m: map<Bound, real>)
    requires forall k: Key | k.name == name && (route == "" || OfRoute(k, name, route)) ::
               (k in d <==> k in e) && (k in d ==> d[k] == e[k])
    ensures forall k: Key :: k in Series(d, name, route)
                             <==> k in d && k.name == name && (route == "" || OfRoute(k, name, route))
    ensures forall k: Key, b :: k in BucketsAt(d, parse, name, route, b)
                                <==> k in Series(d, name, route) && AtBound(parse, k, b)
    ensures Series(d, name, route) == Series(e, name, route)
    ensures Sum(d, Series(d, name, route)) == Sum(e, Series(e, name, route))
    ensures Merged(d, parse, name, route, m) <==> Merged(e, parse, name, route, m)
  {
    assert Series(d, name, route) == Series(e, name, route);
    SumSame(d, e, Series(d, name, route));
    forall b
      ensures BucketsAt(d, parse, name, route, b) == BucketsAt(e, parse, name, route, b)
      ensures Sum(d, BucketsAt(d, parse, name, route, b)) == Sum(e, BucketsAt(e, parse, name, route, b))
    {
      SumSame(d, e, BucketsAt(d, parse, name, route, b));
    }
  }

  /** One series' values added up over all label sets. */
  method AddUp(d: map<Key, real>, name: string, route: string) returns (sum: real)
    ensures sum == Sum(d, Series(d, name, route))
  {
    sum := 0.0;
    var todo := d.Keys;
    ghost var done: set<Key> := {};
    while todo != {}
      invariant todo <= d.Keys && done == Series(d, name, route) - todo
      invariant sum == Sum(d, done)
      decreases todo
    {
      var k :| k in todo;
      todo := todo - {k};
      if k.name == name && Wanted(k, route) {
        SumWith(d, done, k);
        sum := sum + d[k];
        done := done + {k};
      }
    }
    assert done == Series(d, name, route);
  }

  /** The cumulative buckets, merged bound by bound. */
  method PerBound(d: map<Key, real>, parse: string -> real, name: string, route: string) returns (m: map<Bound, real>)
    ensures Merged(d, parse, name, route, m)
  {
    hide BucketsAt;
    hide BoundOf;
    hide Wanted;
    hide Sum;
    m := map[];
    var todo := d.Keys;
    ghost var done: set<Key> := {};
    while todo != {}
      invariant todo <= d.Keys && done == d.Keys - todo
      invariant forall b :: b in m <==> BucketsAt(d, parse, name, route, b) * done != {}
      invariant forall b | b in m :: m[b] == Sum(d, BucketsAt(d, parse, name, route, b) * done)
      decreases todo
    {
      var k :| k in todo;
      todo := todo - {k};
      ghost var was, old' := done, m;
      done := done + {k};
      if k.name == name && Wanted(k, route) {
        var b := BoundOf(parse, k);
        m := m[b := (if b in m then m[b] else 0.0) + d[k]];
      }
      OneKeyMore(d, parse, name, route, was, k, old', m);
    }
    forall b
      ensures BucketsAt(d, parse, name, route, b) * done == BucketsAt(d, parse, name, route, b)
    {
      AllAreKeys(d, parse, name, route, b);
    }
  }

  lemma AllAreKeys(d: map<Key, real>, parse: string -> real, name: string, route: string, b: Bound)
    ensures BucketsAt(d, parse, name, route, b) <= d.Keys
  {}

  lemma OnePart(d: map<Key, real>, at: set<Key>, done: set<Key>, k: Key)
    requires at <= d.Keys && k in d && k !in done
    ensures at * (done + {k}) != {} <==> at * done != {} || k in at
    ensures Sum(d, at * (done + {k})) == Sum(d, at * done) + if k in at then d[k] else 0.0
  {
    if k in at {
      assert at * (done + {k}) == at * done + {k};
      SumWith(d, at * done, k);
      assert k in at * (done + {k});
    } else {
      assert at * (done + {k}) == at * done;
    }
  }

  lemma OneKeyMore(d: map<Key, real>, parse: string -> real, name: string, route: string, done: set<Key>, k: Key,
                   m: map<Bound, real>, m': map<Bound, real>)
    requires k in d && k !in done
    requires forall b :: b in m <==> BucketsAt(d, parse, name, route, b) * done != {}
    requires forall b | b in m :: m[b] == Sum(d, BucketsAt(d, parse, name, route, b) * done)
    requires var at := BoundOf(parse, k);
             m' == if k.name == name && Wanted(k, route) then m[at := (if at in m then m[at] else 0.0) + d[k]] else m
    ensures forall b :: b in m' <==> BucketsAt(d, parse, name, route, b) * (done + {k}) != {}
    ensures forall b | b in m' :: m'[b] == Sum(d, BucketsAt(d, parse, name, route, b) * (done + {k}))
  {
    forall b
      ensures b in m' <==> BucketsAt(d, parse, name, route, b) * (done + {k}) != {}
      ensures b in m' ==> m'[b] == Sum(d, BucketsAt(d, parse, name, route, b) * (done + {k}))
    {
      var at := BucketsAt(d, parse, name, route, b);
      assert k in at <==> k.name == name && Wanted(k, route) && BoundOf(parse, k) == b;
      assert at <= d.Keys;
      hide BucketsAt;
      hide BoundOf;
      hide Wanted;
      OnePart(d, at, done, k);
      assert b !in m ==> Sum(d, at * done) == 0.0;
    }
  }

  lemma InsertedBounds(s: seq<(Bound, real)>, at: nat, x: (Bound, real))
    requires at <= |s|
    ensures Bounds(s[..at] + [x] + s[at..]) == Bounds(s) + {x.0}
  {
    var t := s[..at] + [x] + s[at..];
    forall i | 0 <= i < |s|
      ensures s[i].0 in Bounds(t)
    {
      assert t[if i < at then i else i + 1] == s[i];
    }
    assert t[at] == x;
    forall i | 0 <= i < |t|
      ensures t[i].0 in Bounds(s) + {x.0}
    {
      assert t[i] == if i < at then s[i] else if i == at then x else s[i - 1];
    }
  }

  /** A new bucket put where it belongs. */
  method Insert(s: seq<(Bound, real)>, b: Bound, v: real) returns (t: seq<(Bound, real)>)
    requires Ascending(s) && b !in Bounds(s)
    ensures Ascending(t) && Bounds(t) == Bounds(s) + {b} && forall x | x in t :: x in s || x == (b, v)
  {
    var at := 0;
    while at < |s| && Below(s[at].0, b)
      invariant 0 <= at <= |s|
      invariant forall i | 0 <= i < at :: Below(s[i].0, b)
    {
      at := at + 1;
    }
    assert forall i | at <= i < |s| :: Below(b, s[i].0) by {
      if at < |s| {
        assert s[at].0 in Bounds(s);
      }
    }
    InsertedBounds(s, at, (b, v));
    t := s[..at] + [(b, v)] + s[at..];
  }

  /** The entries of a map by rising bound. */
  method Sorted(m: map<Bound, real>) returns (buckets: seq<(Bound, real)>)
    ensures AreItems(buckets, m)
  {
    buckets := [];
    var todo := m.Keys;
    while todo != {}
      invariant todo <= m.Keys && Ascending(buckets) && Bounds(buckets) == m.Keys - todo
      invariant forall x | x in buckets :: x.0 in m && m[x.0] == x.1
      decreases todo
    {
      var b :| b in todo;
      buckets := Insert(buckets, b, m[b]);
      todo := todo - {b};
    }
  }

  /** `histogram`. */
  method Histogram(d: map<Key, real>, parse: string -> real, name: string, route: string)
    returns (count: real, total: real, buckets: seq<(Bound, real)>, ghost m: map<Bound, real>)
    ensures count == Sum(d, Series(d, name + "_count", route)) && total == Sum(d, Series(d, name + "_sum", route))
    ensures Merged(d, parse, name + "_bucket", route, m) && AreItems(buckets, m)
  {
    count := AddUp(d, name + "_count", route);
    total := AddUp(d, name + "_sum", route);
    var merged := PerBound(d, parse, name + "_bucket", route);
    buckets := Sorted(merged);
    m := merged;
  }

  function Target(q: real, n: real): real { q * n }

  /** `_quantile`: the first bucket that reaches the target. */
  method Quantile(buckets: seq<(Bound, real)>, q: real) returns (r: Bound)
    ensures buckets == [] || buckets[|buckets| - 1].1 <= 0.0 ==> r == Finite(0.0)
    ensures buckets != [] && buckets[|buckets| - 1].1 > 0.0
            ==> FirstReaching(buckets, Target(q, buckets[|buckets| - 1].1), r)
  {
    if buckets == [] || buckets[|buckets| - 1].1 <= 0.0 {
      return Finite(0.0);
    }
    var target := Target(q, buckets[|buckets| - 1].1);
    for i := 0 to |buckets|
      invariant forall j | 0 <= j < i :: buckets[j].1 < target
    {
      if buckets[i].1 >= target {
        return buckets[i].0;
      }
    }
    r := buckets[|buckets| - 1].0;
  }

  // ---- what the merged quantile means ----

  predicate Within(x: real, b: Bound) { b.Infinite? || x <= b.value }

  /** How many observations a cumulative bucket holds. */
  function AtMost(obs: seq<real>, b: Bound): nat {
    if obs == [] then 0 else AtMost(obs[..|obs| - 1], b) + if Within(obs[|obs| - 1], b) then 1 else 0
  }

  /** The places of the observations that are no greater than the bound. */
  function PlacesUpTo(obs: seq<real>, b: Bound): set<int> {
    set i | 0 <= i < |obs| && (b == Infinite || obs[i] <= b.value)
  }

  /** A cumulative bucket counts them, each once; the last bucket counts all. */
  lemma {:induction false} AtMostCounts(obs: seq<real>, b: Bound)
    ensures AtMost(obs, b) == |PlacesUpTo(obs, b)|
    ensures AtMost(obs, Infinite) == |obs|
  {
    if obs != [] {
      var n := |obs| - 1;
      AtMostCounts(obs[..n], b);
      assert PlacesUpTo(obs, b)
             == PlacesUpTo(obs[..n], b) + if b == Infinite || obs[n] <= b.value then {n} else {};
    }
  }

  lemma {:induction false} AtMostBoth(a: seq<real>, c: seq<real>, b: Bound)
    ensures AtMost(a + c, b) == AtMost(a, b) + AtMost(c, b)
  {
    if c == [] {
      assert a + c == a;
    } else {
      assert (a + c)[..|a + c| - 1] == a + c[..|c| - 1];
      AtMostBoth(a, c[..|c| - 1], b);
    }
  }

  lemma {:induction false} AtMostAll(obs: seq<real>)
    ensures AtMost(obs, Infinite) == |obs|
  {
    if obs != [] {
      AtMostAll(obs[..|obs| - 1]);
    }
  }

  function LeBound(parse: string -> real, le: string): Bound { if le == "+Inf" then Infinite else Finite(parse(le)) }

  function BucketKey(name: string, labels: Labels, le: string): Key { Key(name, labels["le" := le]) }

  ghost function BucketKeys(name: string, families: set<Labels>, le: string): set<Key> {
    set labels | labels in families :: BucketKey(name, labels, le)
  }

  /** The new observations of every family, pooled. */
  ghost function Pool(obs: map<Labels, seq<real>>, families: set<Labels>): seq<real>
    requires families <= obs.Keys
  {
    if families == {} then []
    else
      var f :| f in families;
      obs[f] + Pool(obs, families - {f})
  }

  /** One scrape, or the change between two, is one histogram: label families, the same bounds, cumulative buckets. */
  ghost predicate Observed(d: map<Key, real>, parse: string -> real, name: string, route: string,
                           obs: map<Labels, seq<real>>, les: set<string>) {
    && "+Inf" in les && (forall f | f in obs :: "le" !in f)
    && (forall a, b | a in les && b in les :: LeBound(parse, a) == LeBound(parse, b) ==> a == b)
    && (forall f, le | f in obs && le in les :: IsBucket(d, name, route, obs, f, le, parse))
    && (forall k | k in Series(d, name, route) :: exists f, le :: f in obs && le in les && k == BucketKey(name, f, le))
  }

  ghost predicate IsBucket(d: map<Key, real>, name: string, route: string, obs: map<Labels, seq<real>>, f: Labels,
                           le: string, parse: string -> real)
    requires f in obs
  {
    && BucketKey(name, f, le) in Series(d, name, route)
    && d[BucketKey(name, f, le)] == AtMost(obs[f], LeBound(parse, le)) as real
  }

  lemma SameFamily(name: string, a: Labels, b: Labels, le: string)
    requires "le" !in a && "le" !in b && BucketKey(name, a, le) == BucketKey(name, b, le)
    ensures a == b
  {
    assert a == a["le" := le] - {"le"};
    assert b == b["le" := le] - {"le"};
  }

  lemma {:induction false} SumOfFamilies(d: map<Key, real>, parse: string -> real, name: string, route: string,
                                         obs: map<Labels, seq<real>>, les: set<string>, families: set<Labels>,
                                         le: string)
    requires Observed(d, parse, name, route, obs, les) && families <= obs.Keys && le in les
    ensures BucketKeys(name, families, le) <= d.Keys
    ensures Sum(d, BucketKeys(name, families, le)) == AtMost(Pool(obs, families), LeBound(parse, le)) as real
    decreases families
  {
    forall f | f in families
      ensures BucketKey(name, f, le) in d
    {
      assert IsBucket(d, name, route, obs, f, le, parse);
    }
    if families == {} {
      assert BucketKeys(name, families, le) == {};
    } else {
      var f :| f in families && Pool(obs, families) == obs[f] + Pool(obs, families - {f});
      var rest := families - {f};
      SumOfFamilies(d, parse, name, route, obs, les, rest, le);
      var k := BucketKey(name, f, le);
      assert BucketKeys(name, families, le) == BucketKeys(name, rest, le) + {k};
      if k in BucketKeys(name, rest, le) {
        var g :| g in rest && BucketKey(name, g, le) == k;
        SameFamily(name, f, g, le);
      }
      assert IsBucket(d, name, route, obs, f, le, parse);
      SumWith(d, BucketKeys(name, rest, le), k);
      AtMostBoth(obs[f], Pool(obs, rest), LeBound(parse, le));
    }
  }

  lemma BucketKeyBound(parse: string -> real, name: string, f: Labels, le: string)
    ensures BoundOf(parse, BucketKey(name, f, le)) == LeBound(parse, le)
  {}

  lemma FamilyBucket(d: map<Key, real>, parse: string -> real, name: string, route: string,
                     obs: map<Labels, seq<real>>, les: set<string>, f: Labels, le: string)
    requires Observed(d, parse, name, route, obs, les) && le in les && f in obs
    ensures BucketKey(name, f, le) in BucketsAt(d, parse, name, route, LeBound(parse, le))
  {
    assert IsBucket(d, name, route, obs, f, le, parse);
    BucketKeyBound(parse, name, f, le);
    hide Observed;
    hide BucketKey;
    hide BoundOf;
    hide LeBound;
    hide Wanted;
  }

  lemma BucketFamily(d: map<Key, real>, parse: string -> real, name: string, route: string,
                     obs: map<Labels, seq<real>>, les: set<string>, b: Bound, k: Key) returns (f: Labels, le: string)
    requires Observed(d, parse, name, route, obs, les) && k in BucketsAt(d, parse, name, route, b)
    ensures f in obs && le in les && k == BucketKey(name, f, le) && b == LeBound(parse, le)
  {
    hide IsBucket;
    hide BucketKey;
    hide BoundOf;
    hide LeBound;
    hide Wanted;
    f, le :| f in obs && le in les && k == BucketKey(name, f, le);
    BucketKeyBound(parse, name, f, le);
  }

  lemma SameLe(d: map<Key, real>, parse: string -> real, name: string, route: string,
               obs: map<Labels, seq<real>>, les: set<string>, a: string, b: string)
    requires Observed(d, parse, name, route, obs, les) && a in les && b in les && LeBound(parse, a) == LeBound(parse, b)
    ensures a == b
  {
    hide LeBound;
    hide IsBucket;
  }

  lemma BucketsAreFamilies(d: map<Key, real>, parse: string -> real, name: string, route: string,
                           obs: map<Labels, seq<real>>, les: set<string>, le: string)
    requires Observed(d, parse, name, route, obs, les) && le in les
    ensures BucketsAt(d, parse, name, route, LeBound(parse, le)) == BucketKeys(name, obs.Keys, le)
  {
    hide Observed;
    hide BucketsAt;
    hide BucketKey;
    hide LeBound;
    forall k | k in BucketsAt(d, parse, name, route, LeBound(parse, le))
      ensures k in BucketKeys(name, obs.Keys, le)
    {
      var f, x := BucketFamily(d, parse, name, route, obs, les, LeBound(parse, le), k);
      SameLe(d, parse, name, route, obs, les, x, le);
    }
    forall k | k in BucketKeys(name, obs.Keys, le)
      ensures k in BucketsAt(d, parse, name, route, LeBound(parse, le))
    {
      var f :| f in obs && k == BucketKey(name, f, le);
      FamilyBucket(d, parse, name, route, obs, les, f, le);
    }
  }

  /**
  Merging adds up to the histogram of all the observations together: the same bounds, each with its cumulative count.
  */
  lemma MergeOfObserved(d: map<Key, real>, parse: string -> real, name: string, route: string,
                       obs: map<Labels, seq<real>>, les: set<string>, m: map<Bound, real>, b: Bound)
    requires Observed(d, parse, name, route, obs, les) && Merged(d, parse, name, route, m) && obs.Keys != {}
    ensures b in m <==> exists le :: le in les && LeBound(parse, le) == b
    ensures b in m ==> m[b] == AtMost(Pool(obs, obs.Keys), b) as real
  {
    hide Observed;
    hide BucketsAt;
    hide BucketKey;
    hide LeBound;
    hide AtMost;
    if b in m {
      assert BucketsAt(d, parse, name, route, b) != {};
      var k :| k in BucketsAt(d, parse, name, route, b);
      var f, x := BucketFamily(d, parse, name, route, obs, les, b, k);
    }
    if le :| le in les && LeBound(parse, le) == b {
      BucketsAreFamilies(d, parse, name, route, obs, les, le);
      SumOfFamilies(d, parse, name, route, obs, les, obs.Keys, le);
      var f :| f in obs.Keys;
      FamilyBucket(d, parse, name, route, obs, les, f, le);
    }
  }

  /** A bound covers the quantile: at least that share of all the observations lies at or under it. */
  predicate Covers(pool: seq<real>, q: real, b: Bound) { AtMost(pool, b) as real >= Target(q, |pool| as real) }

  /** The first bucket that reaches the target, or the last. */
  ghost predicate FirstReaching(buckets: seq<(Bound, real)>, target: real, r: Bound) {
    exists i :: 0 <= i < |buckets| && r == buckets[i].0 && (forall j | 0 <= j < i :: buckets[j].1 < target)
                && (buckets[i].1 >= target || i == |buckets| - 1)
  }

  lemma ShareAtMostAll(q: real, n: real)
    requires 0.0 <= q <= 1.0 && n >= 0.0
    ensures Target(q, n) <= n
  {
    assert (1.0 - q) * n >= 0.0;
  }

  lemma PlaceOf(buckets: seq<(Bound, real)>, m: map<Bound, real>, b: Bound) returns (j: nat)
    requires AreItems(buckets, m) && b in m
    ensures j < |buckets| && buckets[j] == (b, m[b])
  {
    assert b in Bounds(buckets);
    j :| 0 <= j < |buckets| && buckets[j].0 == b;
    assert buckets[j] in buckets;
  }

  lemma Ordered(buckets: seq<(Bound, real)>, i: nat, j: nat)
    requires Ascending(buckets) && i < |buckets| && j < |buckets| && Below(buckets[j].0, buckets[i].0)
    ensures j < i
  {}

  /** In ascending buckets, the first that reaches a reachable target has the least bound that does. */
  lemma FirstIsLeast(buckets: seq<(Bound, real)>, m: map<Bound, real>, target: real, r: Bound)
    requires AreItems(buckets, m) && FirstReaching(buckets, target, r) && buckets != []
             && buckets[|buckets| - 1].1 >= target
    ensures r in m && m[r] >= target
    ensures forall b | b in m && Below(b, r) :: m[b] < target
  {
    var i :| 0 <= i < |buckets| && r == buckets[i].0 && (forall j | 0 <= j < i :: buckets[j].1 < target)
             && (buckets[i].1 >= target || i == |buckets| - 1);
    assert buckets[i] in buckets;
    hide FirstReaching;
    hide Below;
    forall b | b in m && Below(b, r)
      ensures m[b] < target
    {
      var j := PlaceOf(buckets, m, b);
      Ordered(buckets, i, j);
    }
  }

  /** The quantile of a merged histogram is its least bound that covers that share of all the observations together. */
  lemma QuantileIsLeast(d: map<Key, real>, parse: string -> real, name: string, route: string,
                        obs: map<Labels, seq<real>>, les: set<string>, m: map<Bound, real>,
                        buckets: seq<(Bound, real)>, q: real, r: Bound)
    requires Observed(d, parse, name, route, obs, les) && Merged(d, parse, name, route, m) && AreItems(buckets, m)
    requires obs.Keys != {} && 0.0 <= q <= 1.0
    requires buckets != [] ==> FirstReaching(buckets, Target(q, buckets[|buckets| - 1].1), r)
    ensures r in m && Covers(Pool(obs, obs.Keys), q, r)
    ensures forall b | b in m && Below(b, r) :: !Covers(Pool(obs, obs.Keys), q, b)
  {
    LastIsAll(d, parse, name, route, obs, les, m, buckets);
    hide Observed;
    hide Merged;
    hide AtMost;
    hide AreItems;
    hide FirstReaching;
    hide Target;
    var n := |Pool(obs, obs.Keys)| as real;
    ShareAtMostAll(q, n);
    FirstIsLeast(buckets, m, Target(q, n), r);
  }

  lemma LastBound(buckets: seq<(Bound, real)>, m: map<Bound, real>)
    requires AreItems(buckets, m) && Infinite in m
    ensures buckets != [] && buckets[|buckets| - 1] == (Infinite, m[Infinite])
  {
    assert Infinite in Bounds(buckets);
    var i :| 0 <= i < |buckets| && buckets[i].0 == Infinite;
    assert buckets[i] in buckets;
    assert i < |buckets| - 1 ==> Below(buckets[i].0, buckets[|buckets| - 1].0);
  }

  /** The last bucket is the one without a bound, and holds every observation. */
  lemma LastIsAll(d: map<Key, real>, parse: string -> real, name: string, route: string,
                  obs: map<Labels, seq<real>>, les: set<string>, m: map<Bound, real>, buckets: seq<(Bound, real)>)
    requires Observed(d, parse, name, route, obs, les) && Merged(d, parse, name, route, m) && AreItems(buckets, m)
             && obs.Keys != {}
    ensures buckets != [] && buckets[|buckets| - 1] == (Infinite, |Pool(obs, obs.Keys)| as real)
    ensures forall b | b in m :: m[b] == AtMost(Pool(obs, obs.Keys), b) as real
  {
    assert "+Inf" in les && LeBound(parse, "+Inf") == Infinite;
    hide Observed;
    hide Merged;
    hide LeBound;
    hide AreItems;
    hide AtMost;
    forall b
      ensures b in m ==> m[b] == AtMost(Pool(obs, obs.Keys), b) as real
    {
      MergeOfObserved(d, parse, name, route, obs, les, m, b);
    }
    MergeOfObserved(d, parse, name, route, obs, les, m, Infinite);
    AtMostAll(Pool(obs, obs.Keys));
    LastBound(buckets, m);
  }

  // ---- two scrapes ----

  /** The observations of a family, none before it is first seen. */
  function ObsOf(obs: map<Labels, seq<real>>, f: Labels): seq<real> { if f in obs then obs[f] else [] }

  /** A counting histogram goes on from what it had: no family disappears, nothing is forgotten. */
  function GoneOn(old': map<Labels, seq<real>>, new': map<Labels, seq<real>>): map<Labels, seq<real>> {
    map f | f in new' :: ObsOf(old', f) + new'[f]
  }

  /** A family that was not there before had no bucket then. */
  lemma BucketBefore(before: map<Key, real>, parse: string -> real, name: string, route: string,
                     old': map<Labels, seq<real>>, les: set<string>, f: Labels, le: string)
    requires Observed(before, parse, name, route, old', les) && "le" !in f && le in les
    requires Wanted(BucketKey(name, f, le), route)
    ensures Before(before, BucketKey(name, f, le)) == AtMost(ObsOf(old', f), LeBound(parse, le)) as real
  {
    hide AtMost;
    var k := BucketKey(name, f, le);
    if f in old' {
      assert IsBucket(before, name, route, old', f, le, parse);
    } else if k in before {
      assert k in Series(before, name, route);
      var g, x :| g in old' && x in les && k == BucketKey(name, g, x);
      assert k.labels["le"] == le && k.labels["le"] == x;
      SameFamily(name, f, g, le);
      assert false;
    } else {
      NoneObserved(LeBound(parse, le));
    }
  }

  lemma NoneObserved(b: Bound)
    ensures AtMost([], b) == 0
  {}

  /** One bucket's delta counts the new observations. */
  lemma DeltaOfBucket(before: map<Key, real>, after: map<Key, real>, parse: string -> real, name: string, route: string,
                      old': map<Labels, seq<real>>, new': map<Labels, seq<real>>, les: set<string>, f: Labels,
                      le: string)
    requires Observed(before, parse, name, route, old', les)
             && Observed(after, parse, name, route, GoneOn(old', new'), les)
    requires f in new' && le in les
    ensures IsBucket(Delta(before, after), name, route, new', f, le, parse)
  {
    var all := GoneOn(old', new');
    assert IsBucket(after, name, route, all, f, le, parse);
    hide AtMost;
    BucketBefore(before, parse, name, route, old', les, f, le);
    AtMostBoth(ObsOf(old', f), new'[f], LeBound(parse, le));
  }

  /** Without a restart the delta of two scrapes of a histogram is the histogram of what was observed between them. */
  lemma DeltaObserved(before: map<Key, real>, after: map<Key, real>, parse: string -> real, name: string, route: string,
                      old': map<Labels, seq<real>>, new': map<Labels, seq<real>>, les: set<string>)
    requires Observed(before, parse, name, route, old', les)
             && Observed(after, parse, name, route, GoneOn(old', new'), les)
    ensures Observed(Delta(before, after), parse, name, route, new', les)
  {
    forall f, le | f in new' && le in les
      ensures IsBucket(Delta(before, after), name, route, new', f, le, parse)
    {
      DeltaOfBucket(before, after, parse, name, route, old', new', les, f, le);
    }
    hide IsBucket;
    forall k | k in Series(Delta(before, after), name, route)
      ensures exists f, le :: f in new' && le in les && k == BucketKey(name, f, le)
    {
      assert k in Series(after, name, route);
    }
  }

  /** With nothing observed at all there is no bucket. */
  lemma NoFamilies(d: map<Key, real>, parse: string -> real, name: string, route: string, les: set<string>,
                   obs: map<Labels, seq<real>>, m: map<Bound, real>, buckets: seq<(Bound, real)>)
    requires Observed(d, parse, name, route, obs, les) && Merged(d, parse, name, route, m) && AreItems(buckets, m)
             && obs.Keys == {}
    ensures buckets == [] && Pool(obs, obs.Keys) == []
  {
    hide IsBucket;
    assert Series(d, name, route) == {};
    forall b
      ensures BucketsAt(d, parse, name, route, b) == {}
    {}
    FirstBound(buckets);
  }

  lemma FirstBound(buckets: seq<(Bound, real)>)
    ensures buckets != [] ==> buckets[0].0 in Bounds(buckets)
  {}

  /**
  Between two scrapes without a restart, merging the delta over all label sets gives the histogram of everything
  observed in between, pooled: the same bounds, each with its cumulative count.
  */
  lemma MergedIsPooled(before: map<Key, real>, after: map<Key, real>, parse: string -> real, name: string,
                       route: string, old': map<Labels, seq<real>>, new': map<Labels, seq<real>>, les: set<string>,
                       m: map<Bound, real>, b: Bound)
    requires Observed(before, parse, name, route, old', les)
             && Observed(after, parse, name, route, GoneOn(old', new'), les)
    requires new'.Keys != {} && Merged(Delta(before, after), parse, name, route, m)
    ensures b in m <==> exists le :: le in les && LeBound(parse, le) == b
    ensures b in m ==> m[b] == AtMost(Pool(new', new'.Keys), b) as real
  {
    DeltaObserved(before, after, parse, name, route, old', new', les);
    hide Observed;
    hide Merged;
    hide Delta;
    hide LeBound;
    hide AtMost;
    MergeOfObserved(Delta(before, after), parse, name, route, new', les, m, b);
  }

  /**
  What the summary prints for one histogram of two scrapes with no restart between them: the delta, the merge over all
  label sets, then the quantile - the least bound that covers that share of everything observed between the scrapes.
  */
  method MergedQuantile(before: map<Key, real>, after: map<Key, real>, parse: string -> real, name: string,
                        route: string, q: real, ghost old': map<Labels, seq<real>>,
                        ghost new': map<Labels, seq<real>>, ghost les: set<string>)
    returns (r: Bound, ghost m: map<Bound, real>)
    requires Observed(before, parse, name + "_bucket", route, old', les)
    requires Observed(after, parse, name + "_bucket", route, GoneOn(old', new'), les)
    requires 0.0 <= q <= 1.0
    ensures Pool(new', new'.Keys) == [] ==> r == Finite(0.0)
    ensures new'.Keys != {} ==> forall b :: b in m <==> exists le :: le in les && LeBound(parse, le) == b
    ensures Pool(new', new'.Keys) != [] ==>
              && r in m && Covers(Pool(new', new'.Keys), q, r)
              && forall b | b in m && Below(b, r) :: !Covers(Pool(new', new'.Keys), q, b)
  {
    DeltaObserved(before, after, parse, name + "_bucket", route, old', new', les);
    hide Observed;
    hide Merged;
    hide Delta;
    hide AreItems;
    hide FirstReaching;
    hide Target;
    hide Covers;
    hide LeBound;
    hide GoneOn;
    var d := Delta(before, after);
    var count, total, buckets;
    count, total, buckets, m := Histogram(d, parse, name, route);
    r := Quantile(buckets, q);
    if new'.Keys == {} {
      NoFamilies(d, parse, name + "_bucket", route, les, new', m, buckets);
    } else {
      ReadOff(d, parse, name + "_bucket", route, new', les, m, buckets, q, r);
    }
  }

  /** The three facts about a merged quantile, together. */
  lemma ReadOff(d: map<Key, real>, parse: string -> real, name: string, route: string,
                obs: map<Labels, seq<real>>, les: set<string>, m: map<Bound, real>,
                buckets: seq<(Bound, real)>, q: real, r: Bound)
    requires Observed(d, parse, name, route, obs, les) && Merged(d, parse, name, route, m) && AreItems(buckets, m)
    requires obs.Keys != {} && 0.0 <= q <= 1.0
    requires buckets == [] || buckets[|buckets| - 1].1 <= 0.0 ==> r == Finite(0.0)
    requires buckets != [] && buckets[|buckets| - 1].1 > 0.0
             ==> FirstReaching(buckets, Target(q, buckets[|buckets| - 1].1), r)
    ensures Pool(obs, obs.Keys) == [] ==> r == Finite(0.0)
    ensures forall b :: b in m <==> exists le :: le in les && LeBound(parse, le) == b
    ensures Pool(obs, obs.Keys) != [] ==>
              && r in m && Covers(Pool(obs, obs.Keys), q, r)
              && forall b | b in m && Below(b, r) :: !Covers(Pool(obs, obs.Keys), q, b)
  {
    hide Observed;
    hide Merged;
    hide AreItems;
    hide FirstReaching;
    hide Target;
    hide Covers;
    hide LeBound;
    LastIsAll(d, parse, name, route, obs, les, m, buckets);
    forall b
      ensures b in m <==> exists le :: le in les && LeBound(parse, le) == b
    {
      MergeOfObserved(d, parse, name, route, obs, les, m, b);
    }
    if Pool(obs, obs.Keys) != [] {
      QuantileIsLeast(d, parse, name, route, obs, les, m, buckets, q, r);
    }
  }
}
