/** Reachability in a finite graph, defined by paths. */
module Reachability {

  type Node = string

  type Graph = map<Node, seq<Node>>

  predicate IsPath(g: Graph, p: seq<Node>) {
    |p| > 0 && forall i | 0 <= i < |p| - 1 :: p[i] in g && p[i + 1] in g[p[i]]
  }

  predicate Joins(g: Graph, p: seq<Node>, a: Node, b: Node) {
    IsPath(g, p) && p[0] == a && p[|p| - 1] == b
  }

  /** b is a itself, or is reached from it. */
  ghost predicate Above(g: Graph, a: Node, b: Node) {
    exists p :: Joins(g, p, a, b)
  }

  /** ... along a path that never meets `avoid`. */
  ghost predicate AboveAvoiding(g: Graph, a: Node, b: Node, avoid: Node) {
    exists p :: Joins(g, p, a, b) && avoid !in p
  }

  lemma Start(g: Graph, a: Node, avoid: Node)
    requires a != avoid
    ensures AboveAvoiding(g, a, a, avoid)
  {
    assert Joins(g, [a], a, a) && avoid !in [a];
  }

  lemma Extend(g: Graph, p: seq<Node>, a: Node, v: Node, d: Node)
    requires Joins(g, p, a, v) && v in g && d in g[v]
    ensures Joins(g, p + [d], a, d)
  {}

  lemma OneMore(g: Graph, a: Node, v: Node, d: Node, avoid: Node)
    requires AboveAvoiding(g, a, v, avoid) && v in g && d in g[v]
    ensures d != avoid ==> AboveAvoiding(g, a, d, avoid)
    ensures Above(g, a, d)
  {
    var p :| Joins(g, p, a, v) && avoid !in p;
    Extend(g, p, a, v, d);
    assert d != avoid ==> avoid !in p + [d];
  }

  /**
  A set that holds a and, with each of its members, every successor but the avoided one, holds all that a reaches.
  */
  ghost predicate Closed(g: Graph, seen: set<Node>, avoid: Node) {
    forall v, d | v in seen && v in g && d in g[v] && d != avoid :: d in seen
  }

  lemma {:induction false} ClosedHolds(g: Graph, seen: set<Node>, avoid: Node, p: seq<Node>)
    requires Closed(g, seen, avoid) && IsPath(g, p) && p[0] in seen && avoid !in p
    ensures p[|p| - 1] in seen
    decreases |p|
  {
    if |p| > 1 {
      assert p[1] in p;
      ClosedHolds(g, seen, avoid, p[1..]);
    }
  }

  /** A path that meets the avoided node has a part before it that does not, and a link into it. */
  lemma {:induction false} FirstMeeting(g: Graph, p: seq<Node>, avoid: Node) returns (v: Node)
    requires IsPath(g, p) && p[0] != avoid && avoid in p
    ensures AboveAvoiding(g, p[0], v, avoid) && v in g && avoid in g[v]
    decreases |p|
  {
    if p[1] == avoid {
      v := p[0];
      Start(g, v, avoid);
    } else {
      v := FirstMeeting(g, p[1..], avoid);
      var q :| Joins(g, q, p[1], v) && avoid !in q;
      assert Joins(g, [p[0]] + q, p[0], v);
    }
  }

  /** A set that holds a and every successor of its members holds all that a reaches. */
  lemma {:induction false} ClosedReach(g: Graph, seen: set<Node>, p: seq<Node>)
    requires IsPath(g, p) && p[0] in seen && (forall v, d | v in seen && v in g && d in g[v] :: d in seen)
    ensures p[|p| - 1] in seen
    decreases |p|
  {
    if |p| > 1 {
      assert p[1] in g[p[0]];
      ClosedReach(g, seen, p[1..]);
    }
  }

  lemma AboveItself(g: Graph, a: Node)
    ensures Above(g, a, a)
  {
    assert Joins(g, [a], a, a);
  }

  lemma AboveNext(g: Graph, a: Node, v: Node, d: Node)
    requires Above(g, a, v) && v in g && d in g[v]
    ensures Above(g, a, d)
  {
    var p :| Joins(g, p, a, v);
    Extend(g, p, a, v, d);
  }
}
