/**
The functions a migration's upgrade() runs: itself, and whatever module-level helpers its calls lead to.
A migration file is its syntax tree; `ast.walk` is the given order of the nodes below a function.
*/
module MigrationBodies {
  import opened Sequences
  import opened Wrappers
  import opened Reachability
  import opened RollbackCheck

  // ---- syntax ----

  datatype Value = NoneValue | BoolValue(b: bool) | StrValue(s: string) | NumValue(n: int)

  datatype Expr =
    | Constant(v: Value)
    | Name(id: string)
    | Attribute(attr: string, value: Expr)
    | Call(call: CallExpr)
    | Joined(parts: seq<Option<string>>)   // an f-string: Some text, or None for a placeholder
    | Starred(value: Expr)                 // `*rest` among the arguments of a call
    | OtherExpr

  datatype CallExpr = CallExpr(func: Expr, args: seq<Expr>, keywords: seq<Keyword>)

  /** A keyword argument; `**rest` has no name. */
  datatype Keyword = Keyword(arg: Option<string>, value: Expr)

  datatype WithItem = WithItem(context: Expr, alias: Option<string>)

  /**
  A node below a function.  A call knows the `with` items it stands in, the innermost last, and whether the upgrade
  makes it whenever it runs to its end: it stands under no condition, loop or handler, and in no helper called from
  there.
  */
  datatype AstNode =
    | CallNode(call: CallExpr, within: seq<WithItem>, certain: bool)
    | WithNode(items: seq<WithItem>)
    | OtherNode

  datatype Def = Def(name: string, isAsync: bool, decorated: bool, nodes: seq<AstNode>)

  /** A module-level statement; one of another kind (an import, a class, a block) may bind names too. */
  datatype Stmt = FunctionStmt(def: Def) | AssignStmt(names: seq<string>, value: Expr) | OtherStmt(binds: seq<string>)

  type Tree = seq<Stmt>

  // ---- the functions upgrade() runs ----

  /** Module-level functions by name; a later definition replaces an earlier one. */
  function Defs(tree: Tree): (defs: map<string, Def>)
    ensures forall n | n in defs :: defs[n].name == n
  {
    if tree == [] then map[]
    else
      var front, last := Defs(tree[..|tree| - 1]), tree[|tree| - 1];
      if last.FunctionStmt? then front[last.def.name := last.def] else front
  }

  /** The first plain `def upgrade`. */
  function Upgrade(tree: Tree): (d: Option<Def>)
    ensures d.Some? ==> d.value.name == "upgrade"
  {
    if tree == [] then None
    else if tree[0].FunctionStmt? && !tree[0].def.isAsync && tree[0].def.name == "upgrade" then Some(tree[0].def)
    else Upgrade(tree[1..])
  }

  function Callee(n: AstNode): Option<string> {
    if n.CallNode? && n.call.func.Name? then Some(n.call.func.id) else None
  }

  function Callees(nodes: seq<AstNode>, defs: map<string, Def>): seq<string> {
    if nodes == [] then []
    else
      var front, last := Callees(nodes[..|nodes| - 1], defs), Callee(nodes[|nodes| - 1]);
      if last.Some? && last.value in defs then front + [last.value] else front
  }

  function BodyOf(defs: map<string, Def>, upgrade: Def, name: string): Def
    requires name == upgrade.name || name in defs
  {
    if name == upgrade.name then upgrade else defs[name]
  }

  function CallGraph(defs: map<string, Def>, upgrade: Def): Graph {
    map n | n in defs.Keys + {upgrade.name} :: Callees(BodyOf(defs, upgrade, n).nodes, defs)
  }

  function Names(ds: seq<Def>): seq<string> { seq(|ds|, i requires 0 <= i < |ds| => ds[i].name) }

  // ---- the worklist ----

  /** What the search has met, and what of it is still to be looked at, the next one last. */
  datatype Front = Front(seen: set<string>, todo: seq<Def>)

  /** The front after the calls of some nodes, in their order. */
  function Pushed(defs: map<string, Def>, nodes: seq<AstNode>, f: Front): (g: Front)
    ensures f.seen <= g.seen && g.seen - f.seen <= defs.Keys
    ensures g.seen == f.seen ==> g.todo == f.todo
  {
    if nodes == [] then f
    else
      var g, called := Pushed(defs, nodes[..|nodes| - 1], f), Callee(nodes[|nodes| - 1]);
      if called.Some? && called.value in defs && called.value !in g.seen
      then Front(g.seen + {called.value}, g.todo + [defs[called.value]])
      else g
  }

  /** The functions still to come, in the order they are taken: always the one met last. */
  function Walked(defs: map<string, Def>, f: Front): seq<Def>
    decreases |defs.Keys - f.seen|, |f.todo|
  {
    if f.todo == [] then []
    else
      var fn, g := f.todo[|f.todo| - 1], Front(f.seen, f.todo[..|f.todo| - 1]);
      var h := Pushed(defs, fn.nodes, g);
      Shrinks(defs.Keys, f.seen, h.seen);
      [fn] + Walked(defs, h)
  }

  lemma PushedNext(defs: map<string, Def>, nodes: seq<AstNode>, j: nat, f: Front)
    requires j < |nodes|
    ensures var g, called := Pushed(defs, nodes[..j], f), Callee(nodes[j]);
            Pushed(defs, nodes[..j + 1], f)
            == if called.Some? && called.value in defs && called.value !in g.seen
               then Front(g.seen + {called.value}, g.todo + [defs[called.value]])
               else g
  {
    assert nodes[..j + 1][..j] == nodes[..j];
  }

  lemma Shrinks(names: set<string>, seen: set<string>, more: set<string>)
    requires seen <= more && more - seen <= names
    ensures more != seen ==> |names - more| < |names - seen|
  {
    if more != seen {
      var n :| n in more && n !in seen;
      Subset(names - more, names - seen - {n});
    }
  }

  lemma {:induction false} Subset(a: set<string>, b: set<string>)
    requires a <= b
    ensures |a| <= |b|
    decreases |a|
  {
    if a != {} {
      var n :| n in a;
      Subset(a - {n}, b - {n});
    }
  }

  function Bodies(defs: map<string, Def>, upgrade: Def): seq<Def> {
    Walked(defs, Front({upgrade.name}, [upgrade]))
  }

  // ---- what it finds ----

  /** `out` is the closure of upgrade() under calls of the file's own functions, each once. */
  ghost predicate IsClosure(defs: map<string, Def>, upgrade: Def, out: seq<Def>) {
    && Distinct(Names(out))
    && (forall d | d in out :: (d.name == upgrade.name || d.name in defs) && d == BodyOf(defs, upgrade, d.name))
    && (forall n :: n in Names(out) <==> Above(CallGraph(defs, upgrade), upgrade.name, n))
  }

  lemma CalleesHave(nodes: seq<AstNode>, defs: map<string, Def>)
    ensures forall n :: n in Callees(nodes, defs)
                        <==> n in defs && exists i | 0 <= i < |nodes| :: Callee(nodes[i]) == Some(n)
  {
    if nodes != [] {
      CalleesHave(nodes[..|nodes| - 1], defs);
      assert forall i | 0 <= i < |nodes| - 1 :: Callee(nodes[i]) == Callee(nodes[..|nodes| - 1][i]);
    }
  }

  ghost predicate Walking(defs: map<string, Def>, upgrade: Def, out: seq<Def>, todo: seq<Def>, seen: set<string>) {
    && Distinct(Names(out)) && Distinct(Names(todo)) && (forall n | n in Names(out) :: n !in Names(todo))
    && (forall d | d in out || d in todo ::
          (d.name == upgrade.name || d.name in defs) && d == BodyOf(defs, upgrade, d.name))
    && (forall n :: n in seen <==> n in Names(out) || n in Names(todo))
    && upgrade.name in seen
    && (forall n | n in seen :: Above(CallGraph(defs, upgrade), upgrade.name, n))
  }

  /** Everything in `out` has had its calls followed. */
  ghost predicate Followed(defs: map<string, Def>, out: seq<Def>, seen: set<string>) {
    forall d, n | d in out && n in Callees(d.nodes, defs) :: n in seen
  }

  lemma WalkStart(defs: map<string, Def>, upgrade: Def)
    ensures Walking(defs, upgrade, [], [upgrade], {upgrade.name})
  {
    AboveItself(CallGraph(defs, upgrade), upgrade.name);
    assert Names([upgrade]) == [upgrade.name];
  }

  lemma NameOf(ds: seq<Def>, d: Def)
    ensures Names(ds + [d]) == Names(ds) + [d.name]
    ensures d in ds ==> d.name in Names(ds)
  {
    if d in ds {
      var k :| 0 <= k < |ds| && ds[k] == d;
      assert Names(ds)[k] == d.name;
    }
  }

  lemma WalkPush(defs: map<string, Def>, upgrade: Def, out: seq<Def>, todo: seq<Def>, seen: set<string>, caller: Def,
                 n: string)
    requires Walking(defs, upgrade, out, todo, seen)
    requires caller in out && n in Callees(caller.nodes, defs) && n !in seen && n in defs && defs[n].name == n
    ensures Walking(defs, upgrade, out, todo + [defs[n]], seen + {n})
  {
    NameOf(todo, defs[n]);
    NameOf(out, caller);
    AboveNext(CallGraph(defs, upgrade), upgrade.name, caller.name, n);
  }

  lemma WalkPop(defs: map<string, Def>, upgrade: Def, out: seq<Def>, todo: seq<Def>, fn: Def, seen: set<string>)
    requires Walking(defs, upgrade, out, todo + [fn], seen)
    ensures Walking(defs, upgrade, out + [fn], todo, seen)
  {
    NameOf(todo, fn);
    NameOf(out, fn);
    assert Names(todo) == Names(todo + [fn])[..|todo|];
    assert fn in todo + [fn];
  }

  lemma WalkDone(defs: map<string, Def>, upgrade: Def, out: seq<Def>, seen: set<string>)
    requires Walking(defs, upgrade, out, [], seen) && Followed(defs, out, seen)
    ensures IsClosure(defs, upgrade, out)
  {
    var g := CallGraph(defs, upgrade);
    forall v, d | v in seen && v in g && d in g[v]
      ensures d in seen
    {
      assert v in Names(out);
      var k :| 0 <= k < |out| && Names(out)[k] == v;
      assert out[k] in out;
    }
    forall n | Above(g, upgrade.name, n)
      ensures n in seen
    {
      var p :| Joins(g, p, upgrade.name, n);
      ClosedReach(g, seen, p);
    }
  }

  /** The calls of the first j nodes have been followed. */
  ghost predicate FollowedTo(defs: map<string, Def>, nodes: seq<AstNode>, j: nat, seen: set<string>)
    requires j <= |nodes|
  {
    forall i | 0 <= i < j :: Callee(nodes[i]).Some? && Callee(nodes[i]).value in defs ==> Callee(nodes[i]).value in seen
  }

  lemma FollowedAll(defs: map<string, Def>, out: seq<Def>, fn: Def, seen: set<string>)
    requires Followed(defs, out, seen) && FollowedTo(defs, fn.nodes, |fn.nodes|, seen)
    ensures Followed(defs, out + [fn], seen)
  {
    CalleesHave(fn.nodes, defs);
  }

  lemma FollowedNone(defs: map<string, Def>, seen: set<string>)
    ensures Followed(defs, [], seen)
  {}

  lemma FollowedMore(defs: map<string, Def>, out: seq<Def>, seen: set<string>, n: string)
    requires Followed(defs, out, seen)
    ensures Followed(defs, out, seen + {n})
  {}

  predicate KeyedByName(defs: map<string, Def>) { forall n | n in defs :: defs[n].name == n }

  lemma Keyed(defs: map<string, Def>, n: string)
    requires KeyedByName(defs) && n in defs
    ensures defs[n].name == n
  {}

  lemma CalleeAt(defs: map<string, Def>, nodes: seq<AstNode>, j: nat)
    requires j < |nodes|
    ensures Callee(nodes[j]).Some? && Callee(nodes[j]).value in defs ==> Callee(nodes[j]).value in Callees(nodes, defs)
  {
    CalleesHave(nodes, defs);
  }

  lemma PushedNone(defs: map<string, Def>, nodes: seq<AstNode>, f: Front)
    ensures Pushed(defs, nodes[..0], f) == f && FollowedTo(defs, nodes, 0, f.seen)
  {}

  /** The front's part of the invariant, and how far the calls of fn have been followed. */
  ghost predicate Keeps(defs: map<string, Def>, upgrade: Def, was: seq<Def>, fn: Def, j: nat, f: Front)
    requires j <= |fn.nodes|
  {
    && Walking(defs, upgrade, was + [fn], f.todo, f.seen) && Followed(defs, was, f.seen)
    && FollowedTo(defs, fn.nodes, j, f.seen)
  }

  lemma PushOne(defs: map<string, Def>, upgrade: Def, was: seq<Def>, fn: Def, j: nat, f: Front, n: string)
    requires j < |fn.nodes| && Keeps(defs, upgrade, was, fn, j, f) && KeyedByName(defs)
    requires Callee(fn.nodes[j]) == Some(n) && n in defs && n !in f.seen
    ensures Keeps(defs, upgrade, was, fn, j + 1, Front(f.seen + {n}, f.todo + [defs[n]]))
  {
    Keyed(defs, n);
    CalleeAt(defs, fn.nodes, j);
    hide Walking;
    hide Callees;
    FollowedMore(defs, was, f.seen, n);
    WalkPush(defs, upgrade, was + [fn], f.todo, f.seen, fn, n);
    hide Followed;
  }

  lemma PushNone(defs: map<string, Def>, upgrade: Def, was: seq<Def>, fn: Def, j: nat, f: Front)
    requires j < |fn.nodes| && Keeps(defs, upgrade, was, fn, j, f)
    requires Callee(fn.nodes[j]).Some? && Callee(fn.nodes[j]).value in defs ==> Callee(fn.nodes[j]).value in f.seen
    ensures Keeps(defs, upgrade, was, fn, j + 1, f)
  {
    hide Walking;
    hide Followed;
  }

  lemma {:induction false} PushedWalks(defs: map<string, Def>, upgrade: Def, was: seq<Def>, fn: Def, j: nat, f: Front)
    requires j <= |fn.nodes| && Keeps(defs, upgrade, was, fn, 0, f) && KeyedByName(defs)
    ensures Keeps(defs, upgrade, was, fn, j, Pushed(defs, fn.nodes[..j], f))
    decreases j
  {
    hide *;
    if j == 0 {
      PushedNone(defs, fn.nodes, f);
    } else {
      var g, called := Pushed(defs, fn.nodes[..j - 1], f), Callee(fn.nodes[j - 1]);
      PushedWalks(defs, upgrade, was, fn, j - 1, f);
      PushedNext(defs, fn.nodes, j - 1, f);
      if called.Some? && called.value in defs && called.value !in g.seen {
        PushOne(defs, upgrade, was, fn, j - 1, g, called.value);
      } else {
        PushNone(defs, upgrade, was, fn, j - 1, g);
      }
    }
  }

  lemma WalkedNext(defs: map<string, Def>, out: seq<Def>, f: Front)
    ensures f.todo == [] ==> out + Walked(defs, f) == out
    ensures f.todo != [] ==>
              var fn, g := f.todo[|f.todo| - 1], Front(f.seen, f.todo[..|f.todo| - 1]);
              out + Walked(defs, f) == (out + [fn]) + Walked(defs, Pushed(defs, fn.nodes, g))
  {
    if f.todo != [] {
      var fn, g := f.todo[|f.todo| - 1], Front(f.seen, f.todo[..|f.todo| - 1]);
      var rest := Walked(defs, Pushed(defs, fn.nodes, g));
      assert out + ([fn] + rest) == (out + [fn]) + rest;
    }
  }

  lemma KeepsNone(defs: map<string, Def>, upgrade: Def, was: seq<Def>, fn: Def, f: Front)
    requires Walking(defs, upgrade, was + [fn], f.todo, f.seen) && Followed(defs, was, f.seen)
    ensures Keeps(defs, upgrade, was, fn, 0, f)
  {
    hide Walking;
    hide Followed;
  }

  lemma KeepsAll(defs: map<string, Def>, upgrade: Def, was: seq<Def>, fn: Def, f: Front)
    requires Keeps(defs, upgrade, was, fn, |fn.nodes|, f)
    ensures Walking(defs, upgrade, was + [fn], f.todo, f.seen) && Followed(defs, was + [fn], f.seen)
  {
    FollowedAll(defs, was, fn, f.seen);
    hide Walking;
    hide Followed;
  }

  lemma {:induction false} WalkedCloses(defs: map<string, Def>, upgrade: Def, out: seq<Def>, f: Front)
    requires KeyedByName(defs) && Walking(defs, upgrade, out, f.todo, f.seen) && Followed(defs, out, f.seen)
    ensures IsClosure(defs, upgrade, out + Walked(defs, f))
    decreases |defs.Keys - f.seen|, |f.todo|
  {
    hide *;
    WalkedNext(defs, out, f);
    if f.todo == [] {
      WalkDone(defs, upgrade, out, f.seen);
    } else {
      var fn, g := f.todo[|f.todo| - 1], Front(f.seen, f.todo[..|f.todo| - 1]);
      var h := Pushed(defs, fn.nodes, g);
      assert f.todo == g.todo + [fn];
      WalkPop(defs, upgrade, out, g.todo, fn, f.seen);
      KeepsNone(defs, upgrade, out, fn, g);
      PushedWalks(defs, upgrade, out, fn, |fn.nodes|, g);
      assert fn.nodes[..|fn.nodes|] == fn.nodes;
      KeepsAll(defs, upgrade, out, fn, h);
      Shrinks(defs.Keys, f.seen, h.seen);
      WalkedCloses(defs, upgrade, out + [fn], h);
    }
  }

  /** The search finds exactly the functions upgrade() reaches, each once. */
  lemma BodiesClose(defs: map<string, Def>, upgrade: Def)
    requires KeyedByName(defs)
    ensures IsClosure(defs, upgrade, Bodies(defs, upgrade))
  {
    WalkStart(defs, upgrade);
    FollowedNone(defs, {upgrade.name});
    WalkedCloses(defs, upgrade, [], Front({upgrade.name}, [upgrade]));
    assert [] + Bodies(defs, upgrade) == Bodies(defs, upgrade);
  }

  lemma BodiesOf(tree: Tree, upgrade: Def)
    ensures IsClosure(Defs(tree), upgrade, Bodies(Defs(tree), upgrade))
    ensures [] + Walked(Defs(tree), Front({upgrade.name}, [upgrade])) == Bodies(Defs(tree), upgrade)
  {
    BodiesClose(Defs(tree), upgrade);
  }

  method ReachableBodies(tree: Tree, upgrade: Def) returns (out: seq<Def>)
    ensures out == Bodies(Defs(tree), upgrade)
    ensures IsClosure(Defs(tree), upgrade, out)
  {
    hide *;
    var defs := Defs(tree);
    var seen, todo := {upgrade.name}, [upgrade];
    out := [];
    BodiesOf(tree, upgrade);
    ghost var whole := Bodies(defs, upgrade);
    while todo != []
      invariant out + Walked(defs, Front(seen, todo)) == whole
      decreases |defs.Keys - seen|, |todo|
    {
      var fn := todo[|todo| - 1];
      ghost var f := Front(seen, todo);
      WalkedNext(defs, out, f);
      todo := todo[..|todo| - 1];
      out := out + [fn];
      ghost var g := Front(seen, todo);
      PushedNone(defs, fn.nodes, g);
      for j := 0 to |fn.nodes|
        invariant Front(seen, todo) == Pushed(defs, fn.nodes[..j], g)
      {
        PushedNext(defs, fn.nodes, j, g);
        var called := Callee(fn.nodes[j]);
        if called.Some? && called.value in defs && called.value !in seen {
          seen := seen + {called.value};
          todo := todo + [defs[called.value]];
        }
      }
      assert fn.nodes[..|fn.nodes|] == fn.nodes;
      Shrinks(defs.Keys, f.seen, seen);
    }
    WalkedNext(defs, out, Front(seen, todo));
  }
}
