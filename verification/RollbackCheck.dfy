/**
`migration_rollback_safety.py check`: may the release at `target` run on the schema the database revision left behind?
The worklist over the migration graph is proved against reachability, defined by paths.
*/
module RollbackCheck {
  import opened Sequences
  import opened Wrappers
  import opened Reachability

  type Rev = string

  /**
  A migration as the revision graph holds it: its ROLLBACK_SAFE flag (None: no boolean declared), and its parents.
  */
  datatype Revision = Revision(safe: Option<bool>, down: seq<Rev>)

  type Script = map<Rev, Revision>

  /** Every revision with its parents. */
  function Links(s: Script): Graph { map v | v in s :: s[v].down }

  datatype Report = Report(descendant: bool, between: seq<Rev>, unsafe: seq<Rev>)

  function Unsafe(s: Script, between: seq<Rev>): seq<Rev>
    requires forall v | v in between :: v in s
  {
    if between == [] then []
    else
      var front, last := between[..|between| - 1], between[|between| - 1];
      if s[last].safe != Some(true) then Unsafe(s, front) + [last] else Unsafe(s, front)
  }

  /** What the check promises of its answer. */
  ghost predicate IsReport(s: Script, db: Rev, target: Rev, r: Report) {
    if db == target then r == Report(true, [], [])
    else if db !in s || target !in s then r == Report(false, [], [])
    else
      && (r.descendant <==> Above(Links(s), db, target))
      && Distinct(r.between)
      && (forall v :: v in r.between <==> v in s && AboveAvoiding(Links(s), db, v, target))
      && r.unsafe == Unsafe(s, r.between)
  }

  /** The exit status is 0. */
  predicate Accepts(r: Report) { r.descendant && r.unsafe == [] }

  // ---- the worklist ----

  ghost function Everything(s: Script, db: Rev): set<Rev> {
    {db} + s.Keys + set v, d | v in s && d in s[v].down :: d
  }

  ghost predicate Progress(s: Script, db: Rev, target: Rev, frontier: seq<Rev>, seen: set<Rev>, descendant: bool) {
    && target !in seen
    && (db in seen || db in frontier)
    && (forall v | v in seen || (v in frontier && v != target) :: AboveAvoiding(Links(s), db, v, target))
    && (descendant || target in frontier ==> Above(Links(s), db, target))
    && (forall v, d | v in seen && v in s && d in s[v].down ::
          if d == target then descendant || target in frontier else d in seen || d in frontier)
  }

  lemma InBoth(frontier: seq<Rev>, id: Rev, more: seq<Rev>)
    ensures forall v :: v in frontier + [id] <==> v in frontier || v == id
    ensures forall v :: v in frontier + more <==> v in frontier || v in more
  {}

  /** Taking a revision seen before, or the target, off the worklist. */
  lemma SkipKeeps(s: Script, db: Rev, target: Rev, frontier: seq<Rev>, id: Rev, seen: set<Rev>, descendant: bool)
    requires db != target && Progress(s, db, target, frontier + [id], seen, descendant) && (id in seen || id == target)
    ensures Progress(s, db, target, frontier, seen, descendant || id == target)
  {
    InBoth(frontier, id, []);
  }

  function Parents(s: Script, id: Rev): seq<Rev> { if id in s then s[id].down else [] }

  lemma VisitKeeps(s: Script, db: Rev, target: Rev, frontier: seq<Rev>, id: Rev, seen: set<Rev>, descendant: bool)
    requires Progress(s, db, target, frontier + [id], seen, descendant) && id != target
    ensures Progress(s, db, target, frontier + Parents(s, id), seen + {id}, descendant)
  {
    InBoth(frontier, id, Parents(s, id));
    forall d | d in Parents(s, id)
      ensures Above(Links(s), db, d) && (d != target ==> AboveAvoiding(Links(s), db, d, target))
    {
      OneMore(Links(s), db, id, d, target);
    }
  }

  method Check(s: Script, db: Rev, target: Rev) returns (r: Report)
    ensures IsReport(s, db, target, r)
  {
    if db == target {
      return Report(true, [], []);
    }
    if db !in s || target !in s {
      return Report(false, [], []);
    }
    var between, unsafe, frontier, seen: set<Rev>, descendant := [], [], [db], {}, false;
    Start(Links(s), db, target);
    assert Progress(s, db, target, frontier, seen, descendant);
    hide Progress;
    hide Above;
    hide AboveAvoiding;
    while frontier != []
      invariant forall v | v in frontier :: v in Everything(s, db)
      invariant seen <= Everything(s, db)
      invariant Progress(s, db, target, frontier, seen, descendant)
      invariant Distinct(between) && (forall v :: v in between <==> v in seen && v in s)
      invariant unsafe == Unsafe(s, between)
      decreases Everything(s, db) - seen, |frontier|
    {
      var id := frontier[|frontier| - 1];
      assert frontier == frontier[..|frontier| - 1] + [id];
      frontier := frontier[..|frontier| - 1];
      if id in seen || id == target {
        SkipKeeps(s, db, target, frontier, id, seen, descendant);
        if id == target {
          descendant := true;
        }
        continue;
      }
      VisitKeeps(s, db, target, frontier, id, seen, descendant);
      seen := seen + {id};
      if id !in s {
        assert frontier + Parents(s, id) == frontier;
        continue;
      }
      assert (between + [id])[..|between|] == between;
      between := between + [id];
      if s[id].safe != Some(true) {
        unsafe := unsafe + [id];
      }
      frontier := frontier + s[id].down;
    }
    Complete(s, db, target, seen, descendant);
    r := Report(descendant, between, unsafe);
  }

  lemma Complete(s: Script, db: Rev, target: Rev, seen: set<Rev>, descendant: bool)
    requires db != target && Progress(s, db, target, [], seen, descendant)
    ensures forall v :: v in seen <==> AboveAvoiding(Links(s), db, v, target)
    ensures descendant <==> Above(Links(s), db, target)
  {
    assert Closed(Links(s), seen, target);
    forall v | AboveAvoiding(Links(s), db, v, target)
      ensures v in seen
    {
      var p :| Joins(Links(s), p, db, v) && target !in p;
      ClosedHolds(Links(s), seen, target, p);
    }
    if Above(Links(s), db, target) {
      var p :| Joins(Links(s), p, db, target);
      var v := FirstMeeting(Links(s), p, target);
      assert v in seen;
    }
  }

  // ---- what an accepted rollback rests on ----

  lemma {:induction false} UnsafeEmpty(s: Script, between: seq<Rev>)
    requires forall v | v in between :: v in s
    ensures Unsafe(s, between) == [] <==> forall v | v in between :: s[v].safe == Some(true)
  {
    if between != [] {
      var front, last := between[..|between| - 1], between[|between| - 1];
      UnsafeEmpty(s, front);
      assert between == front + [last];
      assert forall v :: v in between <==> v in front || v == last;
    }
  }

  /** New with the database revision: one of its ancestors (or itself), but not one of the target's. */
  ghost predicate New(s: Script, db: Rev, target: Rev, m: Rev) {
    m in s && Above(Links(s), db, m) && !Above(Links(s), target, m)
  }

  /** An ancestor of the target that the database revision also reaches around the target. */
  ghost predicate Bypassed(s: Script, db: Rev, target: Rev, m: Rev) {
    m in s && AboveAvoiding(Links(s), db, m, target) && Above(Links(s), target, m)
  }

  lemma NewAvoids(s: Script, db: Rev, target: Rev, m: Rev)
    requires New(s, db, target, m)
    ensures AboveAvoiding(Links(s), db, m, target)
  {
    var p :| Joins(Links(s), p, db, m);
    if target in p {
      var k :| 0 <= k < |p| && p[k] == target;
      assert Joins(Links(s), p[k..], target, m);
    }
  }

  /** Exit 0: every migration the older release does not know declares ROLLBACK_SAFE = True. */
  lemma AcceptedIsSafe(s: Script, db: Rev, target: Rev, r: Report, m: Rev)
    requires IsReport(s, db, target, r) && Accepts(r) && New(s, db, target, m)
    ensures s[m].safe == Some(true)
  {
    if db != target {
      NewAvoids(s, db, target, m);
      UnsafeEmpty(s, r.between);
    }
  }

  /**
  Exactly when the check accepts: a known ancestor target, and both the new and the bypassed migrations declare it.
  */
  lemma AcceptsExactly(s: Script, db: Rev, target: Rev, r: Report)
    requires IsReport(s, db, target, r) && db != target
    ensures Accepts(r) <==>
            && db in s && target in s && Above(Links(s), db, target)
            && (forall m | New(s, db, target, m) :: s[m].safe == Some(true))
            && (forall m | Bypassed(s, db, target, m) :: s[m].safe == Some(true))
  {
    if db in s && target in s {
      UnsafeEmpty(s, r.between);
      forall m | New(s, db, target, m)
        ensures m in r.between
      {
        NewAvoids(s, db, target, m);
      }
      forall m | m in r.between
        ensures New(s, db, target, m) || Bypassed(s, db, target, m)
      {
        var p :| Joins(Links(s), p, db, m) && target !in p;
      }
    }
  }

  /** The history branches nowhere, and revisions come in an order. */
  ghost predicate Linear(s: Script, rank: map<Rev, nat>) {
    && (forall v | v in s :: |s[v].down| <= 1 && v in rank)
    && (forall v, d | v in s && d in s[v].down :: d in s && d in rank && rank[d] < rank[v])
  }

  lemma {:induction false} LinearOrder(s: Script, rank: map<Rev, nat>, p: seq<Rev>, i: nat, j: nat)
    requires Linear(s, rank) && IsPath(Links(s), p) && p[0] in s && i <= j < |p|
    ensures p[i] in s && p[j] in s && rank[p[j]] <= rank[p[i]] && (i < j ==> rank[p[j]] < rank[p[i]])
    decreases j
  {
    if j == 0 {
    } else if i < j {
      LinearOrder(s, rank, p, i, j - 1);
      assert p[j - 1] in s && p[j - 1 + 1] in s[p[j - 1]].down;
    } else {
      LinearOrder(s, rank, p, j - 1, j - 1);
      assert p[j - 1] in s && p[j - 1 + 1] in s[p[j - 1]].down;
    }
  }

  /** On a history without branches one of two paths from the same revision continues the other. */
  lemma {:induction false} LinearSame(s: Script, rank: map<Rev, nat>, p: seq<Rev>, q: seq<Rev>, i: nat)
    requires Linear(s, rank) && IsPath(Links(s), p) && IsPath(Links(s), q) && p[0] == q[0] && i < |p| && i < |q|
    ensures p[i] == q[i]
  {
    if i > 0 {
      LinearSame(s, rank, p, q, i - 1);
      assert p[i - 1] in s && p[i - 1 + 1] in s[p[i - 1]].down;
      assert q[i - 1] in s && q[i - 1 + 1] in s[q[i - 1]].down;
    }
  }

  /** On a history without branches nothing is bypassed, so the check accepts exactly the safe rollbacks. */
  lemma LinearNotBypassed(s: Script, rank: map<Rev, nat>, db: Rev, target: Rev, m: Rev)
    requires Linear(s, rank) && db in s && db != target && Above(Links(s), db, target)
    ensures !Bypassed(s, db, target, m)
  {
    if Bypassed(s, db, target, m) {
      var p :| Joins(Links(s), p, db, m) && target !in p;
      var q :| Joins(Links(s), q, db, target);
      var t :| Joins(Links(s), t, target, m);
      if |q| <= |p| {
        LinearSame(s, rank, p, q, |q| - 1);
      } else {
        // m lies on the way to the target, and the target is above m: the order cannot go both ways.
        LinearSame(s, rank, p, q, |p| - 1);
        LinearOrder(s, rank, q, |p| - 1, |q| - 1);
        LinearOrder(s, rank, t, 0, |t| - 1);
      }
    }
  }

  lemma LinearExact(s: Script, rank: map<Rev, nat>, db: Rev, target: Rev, r: Report)
    requires Linear(s, rank) && IsReport(s, db, target, r) && db != target && db in s && target in s
    ensures Accepts(r) <==> Above(Links(s), db, target) && forall m | New(s, db, target, m) :: s[m].safe == Some(true)
  {
    AcceptsExactly(s, db, target, r);
    if Above(Links(s), db, target) {
      forall m
        ensures !Bypassed(s, db, target, m)
      {
        LinearNotBypassed(s, rank, db, target, m);
      }
    }
  }

  /** Two branches over an old unsafe base, merged: nothing new is unsafe, and the check still refuses. */
  lemma MergeRefused()
    ensures var s := map["merge" := Revision(Some(true), ["target", "side"]),
                         "target" := Revision(Some(true), ["base"]),
                         "side" := Revision(Some(true), ["base"]), "base" := Revision(Some(false), [])];
            && (forall m | New(s, "merge", "target", m) :: s[m].safe == Some(true))
            && (forall r | IsReport(s, "merge", "target", r) :: !Accepts(r))
  {
    var s: Script := map["merge" := Revision(Some(true), ["target", "side"]),
                         "target" := Revision(Some(true), ["base"]),
                         "side" := Revision(Some(true), ["base"]), "base" := Revision(Some(false), [])];
    assert Joins(Links(s), ["target", "base"], "target", "base");
    assert Joins(Links(s), ["merge", "side", "base"], "merge", "base") && "target" !in ["merge", "side", "base"];
    assert Bypassed(s, "merge", "target", "base");
    forall r | IsReport(s, "merge", "target", r)
      ensures !Accepts(r)
    {
      AcceptsExactly(s, "merge", "target", r);
    }
  }
}
