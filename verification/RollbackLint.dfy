/**
`migration_rollback_safety.py lint`: what upgrade() does, its helpers included, that an older release may not survive,
and what a clean lint and an accepted check promise together.
*/
module RollbackLint {
  import opened Wrappers
  import opened Reachability
  import opened RollbackCheck
  import opened MigrationBodies

  datatype Risk =
    | ConstraintOnExisting(op: string)
    | Destructive(op: string)
    | AlterKeyword(keyword: string)
    | AlterNotNull
    | AlterDropsDefault
    | AddNotNull
    | SqlBuiltAtRunTime(op: string)
    | RiskySql(op: string)

  const DESTRUCTIVE := {"drop_table", "drop_column", "rename_table"}
  const CONSTRAINT_OPS := {"create_unique_constraint", "create_check_constraint", "create_foreign_key"}

  // ---- reading a call ----

  /** `_kw`: the value of the first keyword argument of that name. */
  function Kw(keywords: seq<Keyword>, name: string): Option<Expr> {
    if keywords == [] then None
    else if keywords[0].arg == Some(name) then Some(keywords[0].value)
    else Kw(keywords[1..], name)
  }

  predicate IsFalse(e: Option<Expr>) { e == Some(Constant(BoolValue(false))) }

  /** `_arg`: a positional or keyword argument, when it is a constant. */
  function ArgValue(c: CallExpr, index: nat, name: string): Value {
    var e := if |c.args| > index then Some(c.args[index]) else Kw(c.keywords, name);
    if e.Some? && e.value.Constant? then e.value.v else NoneValue
  }

  function JoinedText(parts: seq<Option<string>>): Option<string> {
    if parts == [] then Some("")
    else
      var rest := JoinedText(parts[1..]);
      if parts[0].Some? && rest.Some? then Some(parts[0].value + rest.value) else None
  }

  /** The SQL of a statement that is written out in one piece, possibly wrapped in text(). */
  function SingleLiteral(c: CallExpr): Option<string> {
    var first := if c.args != [] then Some(c.args[0])
                 else if Kw(c.keywords, "sqltext").Some? then Kw(c.keywords, "sqltext")
                 else Kw(c.keywords, "statement");
    if first.None? then None
    else
      var bound := first.value;
      var node := if bound.Call? && bound.call.func.Attribute? && bound.call.func.attr == "bindparams"
                     && bound.call.func.value.Call?
                  then bound.call.func.value else bound;
      var text := if node.Call? && |node.call.args| == 1 && node.call.keywords == []
                     && (node.call.func == Name("text") || (node.call.func.Attribute? && node.call.func.attr == "text"))
                  then node.call.args[0] else node;
      match text
      case Constant(StrValue(s)) => Some(s)
      case Joined(parts) => JoinedText(parts)
      case _ => None
  }

  function Op(c: CallExpr): string
    requires c.func.Attribute?
  {
    c.func.attr
  }

  function Owner(c: CallExpr): string
    requires c.func.Attribute?
  {
    if c.func.value.Name? then c.func.value.id else ""
  }

  predicate AddsConstraint(c: CallExpr)
    requires c.func.Attribute?
  {
    || Op(c) in CONSTRAINT_OPS
    || (Op(c) == "create_index" && Kw(c.keywords, "unique").Some? && !IsFalse(Kw(c.keywords, "unique")))
  }

  /** The table a new constraint goes on, as far as the file says. */
  function ConstraintTable(c: CallExpr, batch: map<string, Value>): Value
    requires c.func.Attribute?
  {
    if Owner(c) in batch then batch[Owner(c)]
    else if Op(c) == "create_foreign_key" then ArgValue(c, 1, "source_table")
    else ArgValue(c, 1, "table_name")
  }

  function AddedNotNull(args: seq<Expr>): seq<Risk> {
    if args == [] then []
    else
      var rest := AddedNotNull(args[..|args| - 1]);
      if IsNotNullColumn(args[|args| - 1]) then rest + [AddNotNull] else rest
  }

  predicate IsNotNullColumn(a: Expr) {
    a.Call? && IsFalse(Kw(a.call.keywords, "nullable")) && Kw(a.call.keywords, "server_default").None?
  }

  function If(b: bool, risk: Risk): seq<Risk> { if b then [risk] else [] }

  /** What one call adds to the findings. */
  function Risks(sqlRisky: string -> bool, c: CallExpr, created: set<Value>, batch: map<string, Value>): seq<Risk> {
    if !c.func.Attribute? then []
    else if AddsConstraint(c) then If(ConstraintTable(c, batch) !in created, ConstraintOnExisting(Op(c)))
    else if Op(c) in DESTRUCTIVE then [Destructive(Op(c))]
    else if Op(c) == "alter_column" then
      If(Kw(c.keywords, "new_column_name").Some?, AlterKeyword("new_column_name"))
      + If(Kw(c.keywords, "type_").Some?, AlterKeyword("type_"))
      + If(IsFalse(Kw(c.keywords, "nullable")), AlterNotNull)
      + If(Kw(c.keywords, "server_default") == Some(Constant(NoneValue)), AlterDropsDefault)
    else if Op(c) == "add_column" then AddedNotNull(c.args)
    else if Op(c) == "execute" || Op(c) == "exec_driver_sql" then
      var sql := SingleLiteral(c);
      if sql.None? then [SqlBuiltAtRunTime(Op(c))] else If(sqlRisky(sql.value), RiskySql(Op(c)))
    else []
  }

  // ---- the whole upgrade ----

  function Nodes(bodies: seq<Def>): seq<AstNode> {
    if bodies == [] then [] else Nodes(bodies[..|bodies| - 1]) + bodies[|bodies| - 1].nodes
  }

  predicate CreatesTable(n: AstNode) {
    n.CallNode? && n.call.func.Attribute? && n.call.func.attr == "create_table"
  }

  function Created(nodes: seq<AstNode>): set<Value> {
    set n | n in nodes && CreatesTable(n) :: ArgValue(n.call, 0, "table_name")
  }

  predicate IsBatch(item: WithItem) {
    && item.alias.Some? && item.context.Call? && item.context.call.func.Attribute?
    && item.context.call.func.attr == "batch_alter_table"
  }

  function Noted(item: WithItem, batch: map<string, Value>): map<string, Value> {
    if IsBatch(item) then batch[item.alias.value := ArgValue(item.context.call, 0, "table_name")] else batch
  }

  function BatchItems(items: seq<WithItem>, batch: map<string, Value>): map<string, Value> {
    if items == [] then batch else BatchItems(items[1..], Noted(items[0], batch))
  }

  /** The table behind each `with ... as` name; a later statement replaces an earlier one. */
  function Batches(nodes: seq<AstNode>): map<string, Value> {
    if nodes == [] then map[]
    else
      var front, last := Batches(nodes[..|nodes| - 1]), nodes[|nodes| - 1];
      if last.WithNode? then BatchItems(last.items, front) else front
  }

  function Found(sqlRisky: string -> bool, nodes: seq<AstNode>, created: set<Value>, batch: map<string, Value>)
    : seq<Risk>
  {
    if nodes == [] then []
    else
      var front, last := Found(sqlRisky, nodes[..|nodes| - 1], created, batch), nodes[|nodes| - 1];
      if last.CallNode? then front + Risks(sqlRisky, last.call, created, batch) else front
  }

  function FoundIn(sqlRisky: string -> bool, bodies: seq<Def>): seq<Risk> {
    Found(sqlRisky, Nodes(bodies), Created(Nodes(bodies)), Batches(Nodes(bodies)))
  }

  method AllNodes(bodies: seq<Def>) returns (nodes: seq<AstNode>)
    ensures nodes == Nodes(bodies)
  {
    nodes := [];
    for i := 0 to |bodies|
      invariant nodes == Nodes(bodies[..i])
    {
      assert bodies[..i + 1][..i] == bodies[..i];
      nodes := nodes + bodies[i].nodes;
    }
    assert bodies[..|bodies|] == bodies;
  }

  method CreatedTables(nodes: seq<AstNode>) returns (created: set<Value>)
    ensures created == Created(nodes)
  {
    hide ArgValue;
    created := {};
    for i := 0 to |nodes|
      invariant created == Created(nodes[..i])
    {
      assert nodes[..i + 1] == nodes[..i] + [nodes[i]];
      if CreatesTable(nodes[i]) {
        created := created + {ArgValue(nodes[i].call, 0, "table_name")};
      }
    }
    assert nodes[..|nodes|] == nodes;
  }

  method BatchTables(nodes: seq<AstNode>) returns (batch: map<string, Value>)
    ensures batch == Batches(nodes)
  {
    hide ArgValue;
    batch := map[];
    for i := 0 to |nodes|
      invariant batch == Batches(nodes[..i])
    {
      assert nodes[..i + 1][..i] == nodes[..i];
      if nodes[i].WithNode? {
        var items := nodes[i].items;
        ghost var whole := BatchItems(items, batch);
        for j := 0 to |items|
          invariant BatchItems(items[j..], batch) == whole
        {
          assert items[j..][0] == items[j] && items[j..][1..] == items[j + 1..];
          if IsBatch(items[j]) {
            batch := batch[items[j].alias.value := ArgValue(items[j].context.call, 0, "table_name")];
          }
        }
        assert items[|items|..] == [];
      }
    }
    assert nodes[..|nodes|] == nodes;
  }

  method Findings(sqlRisky: string -> bool, nodes: seq<AstNode>, created: set<Value>, batch: map<string, Value>)
    returns (found: seq<Risk>)
    ensures found == Found(sqlRisky, nodes, created, batch)
  {
    hide Risks;
    found := [];
    for i := 0 to |nodes|
      invariant found == Found(sqlRisky, nodes[..i], created, batch)
    {
      assert nodes[..i + 1][..i] == nodes[..i];
      if nodes[i].CallNode? {
        found := found + Risks(sqlRisky, nodes[i].call, created, batch);
      }
    }
    assert nodes[..|nodes|] == nodes;
  }

  /** What the lint finds in a file. */
  function RisksOf(sqlRisky: string -> bool, tree: Tree): seq<Risk> {
    if Upgrade(tree).None? then [] else FoundIn(sqlRisky, Bodies(Defs(tree), Upgrade(tree).value))
  }

  method RiskyOperations(sqlRisky: string -> bool, tree: Tree) returns (found: seq<Risk>)
    ensures found == RisksOf(sqlRisky, tree)
    ensures Upgrade(tree).None? ==> found == []
    ensures Upgrade(tree).Some? ==>
              var bodies := Bodies(Defs(tree), Upgrade(tree).value);
              IsClosure(Defs(tree), Upgrade(tree).value, bodies) && found == FoundIn(sqlRisky, bodies)
  {
    hide IsClosure;
    hide Found;
    hide Batches;
    hide Created;
    hide Nodes;
    hide Bodies;
    var upgrade := Upgrade(tree);
    if upgrade.None? {
      return [];
    }
    var bodies := ReachableBodies(tree, upgrade.value);
    var nodes := AllNodes(bodies);
    var created := CreatedTables(nodes);
    var batch := BatchTables(nodes);
    found := Findings(sqlRisky, nodes, created, batch);
  }

  // ---- what the findings mean ----

  /** What a call shows of the operations looked for, constraints apart. */
  predicate Shown(sqlRisky: string -> bool, c: CallExpr) {
    c.func.Attribute? &&
    (|| Op(c) in DESTRUCTIVE
     || (Op(c) == "alter_column"
         && (|| Kw(c.keywords, "new_column_name").Some?
             || Kw(c.keywords, "type_").Some?
             || IsFalse(Kw(c.keywords, "nullable"))
             || Kw(c.keywords, "server_default") == Some(Constant(NoneValue))))
     || (Op(c) == "add_column" && exists a | a in c.args :: IsNotNullColumn(a))
     || ((Op(c) == "execute" || Op(c) == "exec_driver_sql")
         && (SingleLiteral(c).Some? ==> sqlRisky(SingleLiteral(c).value))))
  }

  /** What the lint flags: such an operation, or a new constraint on a table whose name it reads in no create_table. */
  predicate Flagged(sqlRisky: string -> bool, c: CallExpr, created: set<Value>, batch: map<string, Value>) {
    c.func.Attribute? && if AddsConstraint(c) then ConstraintTable(c, batch) !in created else Shown(sqlRisky, c)
  }

  lemma {:induction false} AddedNotNullExact(args: seq<Expr>)
    ensures AddedNotNull(args) == [] <==> forall a | a in args :: !IsNotNullColumn(a)
  {
    if args != [] {
      AddedNotNullExact(args[..|args| - 1]);
      assert args == args[..|args| - 1] + [args[|args| - 1]];
    }
  }

  lemma RisksExact(sqlRisky: string -> bool, c: CallExpr, created: set<Value>, batch: map<string, Value>)
    ensures Risks(sqlRisky, c, created, batch) == [] <==> !Flagged(sqlRisky, c, created, batch)
  {
    AddedNotNullExact(c.args);
  }

  lemma {:induction false} FoundExact(sqlRisky: string -> bool, nodes: seq<AstNode>, created: set<Value>,
                                      batch: map<string, Value>)
    ensures Found(sqlRisky, nodes, created, batch) == []
            <==> forall n | n in nodes && n.CallNode? :: !Flagged(sqlRisky, n.call, created, batch)
  {
    hide Risks;
    hide Flagged;
    if nodes != [] {
      var front, last := nodes[..|nodes| - 1], nodes[|nodes| - 1];
      FoundExact(sqlRisky, front, created, batch);
      if last.CallNode? {
        RisksExact(sqlRisky, last.call, created, batch);
      }
      assert nodes == front + [last];
    }
  }

  lemma {:induction false} NodesOf(bodies: seq<Def>)
    ensures forall n :: n in Nodes(bodies) <==> exists d | d in bodies :: n in d.nodes
  {
    if bodies != [] {
      NodesOf(bodies[..|bodies| - 1]);
      assert bodies == bodies[..|bodies| - 1] + [bodies[|bodies| - 1]];
      assert forall d :: d in bodies <==> d in bodies[..|bodies| - 1] || d == bodies[|bodies| - 1];
    }
  }

  /** No call in upgrade() or in any helper it reaches is flagged. */
  ghost predicate Unflagged(sqlRisky: string -> bool, bodies: seq<Def>) {
    forall d, n | d in bodies && n in d.nodes && n.CallNode? ::
      !Flagged(sqlRisky, n.call, Created(Nodes(bodies)), Batches(Nodes(bodies)))
  }

  lemma FoundNothing(sqlRisky: string -> bool, bodies: seq<Def>)
    ensures FoundIn(sqlRisky, bodies) == [] <==> Unflagged(sqlRisky, bodies)
  {
    NodesOf(bodies);
    FoundExact(sqlRisky, Nodes(bodies), Created(Nodes(bodies)), Batches(Nodes(bodies)));
    hide Flagged;
    hide Found;
    hide Created;
    hide Batches;
    if Unflagged(sqlRisky, bodies) {
      forall n | n in Nodes(bodies) && n.CallNode?
        ensures !Flagged(sqlRisky, n.call, Created(Nodes(bodies)), Batches(Nodes(bodies)))
      {
        var d :| d in bodies && n in d.nodes;
      }
    }
  }

  // ---- the lint ----

  /** `_declared`: the constant a module-level assignment gives the name; the last one counts. */
  function Declared(tree: Tree, name: string): Option<Value> {
    if tree == [] then None
    else
      var last := tree[|tree| - 1];
      if last.AssignStmt? && name in last.names && last.value.Constant? then Some(last.value.v)
      else Declared(tree[..|tree| - 1], name)
  }

  predicate Truthy(v: Option<Value>) {
    match v
    case None => false
    case Some(NoneValue) => false
    case Some(BoolValue(b)) => b
    case Some(StrValue(s)) => s != ""
    case Some(NumValue(n)) => n != 0
  }

  /** `_module_flag`: the declared flag, when it is a boolean. */
  function Flag(tree: Tree): Option<bool> {
    match Declared(tree, "ROLLBACK_SAFE")
    case Some(BoolValue(b)) => Some(b)
    case _ => None
  }

  predicate Reasoned(tree: Tree) { Truthy(Declared(tree, "ROLLBACK_SAFE_REASON")) }

  // ---- what a file says of itself, by its statements ----

  predicate GivesConstant(s: Stmt, x: string) { s.AssignStmt? && x in s.names && s.value.Constant? }

  /** The statement is the last one that gives the name a constant. */
  predicate LastGiven(tree: Tree, x: string, k: int) {
    0 <= k < |tree| && GivesConstant(tree[k], x) && forall j | k < j < |tree| :: !GivesConstant(tree[j], x)
  }

  /** The last constant given to ROLLBACK_SAFE is this boolean. */
  ghost predicate Says(tree: Tree, safe: bool) {
    exists k :: LastGiven(tree, "ROLLBACK_SAFE", k) && tree[k].value == Constant(BoolValue(safe))
  }

  /** The last constant given to ROLLBACK_SAFE_REASON is not an empty one. */
  ghost predicate GivesReason(tree: Tree) {
    exists k ::
      && LastGiven(tree, "ROLLBACK_SAFE_REASON", k)
      && tree[k].value.v !in {NoneValue, BoolValue(false), StrValue(""), NumValue(0)}
  }

  lemma {:induction false} DeclaredIs(tree: Tree, x: string)
    ensures Declared(tree, x).Some?
            ==> exists k :: LastGiven(tree, x, k) && tree[k].value == Constant(Declared(tree, x).value)
    ensures Declared(tree, x).None? ==> forall k :: !LastGiven(tree, x, k)
  {
    if tree != [] {
      var front, last := tree[..|tree| - 1], |tree| - 1;
      if GivesConstant(tree[last], x) {
        assert LastGiven(tree, x, last);
      } else {
        DeclaredIs(front, x);
        forall k
          ensures LastGiven(tree, x, k) <==> LastGiven(front, x, k)
        {}
        if Declared(front, x).Some? {
          var k :| LastGiven(front, x, k) && front[k].value == Constant(Declared(front, x).value);
          assert LastGiven(tree, x, k) && tree[k] == front[k];
        }
      }
    }
  }

  lemma FlagSays(tree: Tree)
    ensures forall safe :: Flag(tree) == Some(safe) <==> Says(tree, safe)
    ensures Reasoned(tree) <==> GivesReason(tree)
  {
    DeclaredIs(tree, "ROLLBACK_SAFE");
    DeclaredIs(tree, "ROLLBACK_SAFE_REASON");
    hide Declared;
  }

  /** Nothing is flagged in what the lint takes for the upgrade. */
  ghost predicate UnflaggedUpgrade(sqlRisky: string -> bool, tree: Tree) {
    Upgrade(tree).Some? ==> Unflagged(sqlRisky, Bodies(Defs(tree), Upgrade(tree).value))
  }

  lemma RisksOfExact(sqlRisky: string -> bool, tree: Tree)
    ensures RisksOf(sqlRisky, tree) == [] <==> UnflaggedUpgrade(sqlRisky, tree)
  {
    if Upgrade(tree).Some? {
      FoundNothing(sqlRisky, Bodies(Defs(tree), Upgrade(tree).value));
    }
  }

  /** Declared safe, without a reason, and something in its upgrade is flagged. */
  ghost predicate RiskyUnreasoned(sqlRisky: string -> bool, tree: Tree) {
    Says(tree, true) && !GivesReason(tree) && !UnflaggedUpgrade(sqlRisky, tree)
  }

  /** What a clean lint says of one file. */
  ghost predicate Linted(sqlRisky: string -> bool, tree: Tree) {
    && (Says(tree, true) || Says(tree, false))
    && (Says(tree, true) && !GivesReason(tree) ==> UnflaggedUpgrade(sqlRisky, tree))
  }

  datatype File = File(name: string, tree: Tree)

  datatype Problem = MissingFlag(name: string, risks: seq<Risk>) | RiskyButSafe(name: string, risks: seq<Risk>)

  /** A file has the problem: it declares no flag, or it is risky and gives no reason. */
  ghost predicate Has(sqlRisky: string -> bool, f: File, p: Problem) {
    && p.name == f.name && p.risks == RisksOf(sqlRisky, f.tree)
    && if p.MissingFlag? then !Says(f.tree, true) && !Says(f.tree, false) else RiskyUnreasoned(sqlRisky, f.tree)
  }

  /** The problems are exactly those the files have. */
  ghost predicate Reported(sqlRisky: string -> bool, files: seq<File>, problems: seq<Problem>) {
    forall p :: p in problems <==> exists f | f in files :: Has(sqlRisky, f, p)
  }

  /** One file's problems, at most one. */
  ghost predicate ReportedOne(sqlRisky: string -> bool, f: File, problems: seq<Problem>) {
    forall p :: p in problems <==> Has(sqlRisky, f, p)
  }

  lemma ReportedMore(sqlRisky: string -> bool, files: seq<File>, problems: seq<Problem>, f: File, more: seq<Problem>)
    requires Reported(sqlRisky, files, problems) && ReportedOne(sqlRisky, f, more)
    ensures Reported(sqlRisky, files + [f], problems + more)
  {
    hide Has;
    forall p
      ensures p in problems + more <==> exists g | g in files + [f] :: Has(sqlRisky, g, p)
    {
      if p in problems {
        var g :| g in files && Has(sqlRisky, g, p);
        assert g in files + [f];
      }
      assert f in files + [f];
    }
  }

  lemma CleanIsLinted(sqlRisky: string -> bool, files: seq<File>, problems: seq<Problem>)
    requires Reported(sqlRisky, files, problems)
    ensures problems == [] <==> forall f | f in files :: Linted(sqlRisky, f.tree)
  {
    hide UnflaggedUpgrade;
    hide RisksOf;
    hide LastGiven;
    forall f | f in files && !Linted(sqlRisky, f.tree)
      ensures problems != []
    {
      var risks := RisksOf(sqlRisky, f.tree);
      var p := if RiskyUnreasoned(sqlRisky, f.tree) then RiskyButSafe(f.name, risks) else MissingFlag(f.name, risks);
      assert Has(sqlRisky, f, p);
      assert p in problems;
    }
    if problems != [] {
      assert problems[0] in problems;
      var f :| f in files && Has(sqlRisky, f, problems[0]);
    }
  }

  method Lint(sqlRisky: string -> bool, files: seq<File>) returns (problems: seq<Problem>)
    ensures Reported(sqlRisky, files, problems)
    ensures problems == [] <==> forall f | f in files :: Linted(sqlRisky, f.tree)
  {
    problems := [];
    hide UnflaggedUpgrade;
    hide Linted;
    hide Declared;
    hide Truthy;
    hide Flag;
    hide Says;
    hide GivesReason;
    hide IsClosure;
    hide FoundIn;
    hide RisksOf;
    for i := 0 to |files|
      invariant Reported(sqlRisky, files[..i], problems)
    {
      var f := files[i];
      var safe := Flag(f.tree);
      var risks := RiskyOperations(sqlRisky, f.tree);
      RisksOfExact(sqlRisky, f.tree);
      FlagSays(f.tree);
      var more: seq<Problem> := [];
      if safe.None? {
        more := [MissingFlag(f.name, risks)];
      } else if safe.value && risks != [] && !Truthy(Declared(f.tree, "ROLLBACK_SAFE_REASON")) {
        more := [RiskyButSafe(f.name, risks)];
      }
      assert ReportedOne(sqlRisky, f, more);
      ReportedMore(sqlRisky, files[..i], problems, f, more);
      problems := problems + more;
      assert files[..i + 1] == files[..i] + [f];
    }
    assert files[..|files|] == files;
    CleanIsLinted(sqlRisky, files, problems);
  }

  /**
  A file no statement of which names a reason, whose last word on ROLLBACK_SAFE is True and whose judged upgrade holds a
  flagged call, is reported.
  */
  lemma UnreasonedIsReported(sqlRisky: string -> bool, files: seq<File>, problems: seq<Problem>, f: File, k: nat,
                             d: Def, n: AstNode)
    requires Reported(sqlRisky, files, problems) && f in files
    requires forall s | s in f.tree && s.AssignStmt? :: "ROLLBACK_SAFE_REASON" !in s.names
    requires k < |f.tree| && f.tree[k].AssignStmt? && "ROLLBACK_SAFE" in f.tree[k].names
             && f.tree[k].value == Constant(BoolValue(true))
    requires forall j | k < j < |f.tree| && f.tree[j].AssignStmt? && f.tree[j].value.Constant? ::
               "ROLLBACK_SAFE" !in f.tree[j].names
    requires Upgrade(f.tree).Some? && d in Bodies(Defs(f.tree), Upgrade(f.tree).value) && n in d.nodes && n.CallNode?
    requires var nodes := Nodes(Bodies(Defs(f.tree), Upgrade(f.tree).value));
             Flagged(sqlRisky, n.call, Created(nodes), Batches(nodes))
    ensures exists p | p in problems :: p.RiskyButSafe? && p.name == f.name
  {
    hide Flagged;
    hide RisksOf;
    hide Nodes;
    hide Created;
    hide Batches;
    hide Bodies;
    assert LastGiven(f.tree, "ROLLBACK_SAFE", k);
    assert forall j :: !LastGiven(f.tree, "ROLLBACK_SAFE_REASON", j);
    assert !UnflaggedUpgrade(sqlRisky, f.tree);
    assert Has(sqlRisky, f, RiskyButSafe(f.name, RisksOf(sqlRisky, f.tree)));
    assert RiskyButSafe(f.name, RisksOf(sqlRisky, f.tree)) in problems;
  }
}
