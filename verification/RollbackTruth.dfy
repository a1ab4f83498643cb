/**
What a quiet lint is worth when the migration runs: exactly which of the documented operations it always sees, which
files without a finding are harmless, and whether the `upgrade` it judges is the one that runs.
*/
module RollbackTruth {
  import opened Sequences
  import opened Wrappers
  import opened RollbackCheck
  import opened MigrationBodies
  import opened RollbackLint
  import opened RollbackRuns

  // ---- what the lint finds of one call ----

  /** In whatever way the names turn out, the lint finds the call if it is one of the documented operations. */
  ghost predicate AlwaysFound(sqlRisky: string -> bool, steady: bool, nodes: seq<AstNode>, i: nat)
    requires OperationAt(nodes, i)
  {
    forall run | Possible(steady, run) && Breaks(sqlRisky, run, nodes, i) ::
      Risks(sqlRisky, nodes[i].call, Created(nodes), Batches(nodes)) != []
  }

  lemma SilentPasses(sqlRisky: string -> bool, nodes: seq<AstNode>, i: nat)
    requires OperationAt(nodes, i) && Risks(sqlRisky, nodes[i].call, Created(nodes), Batches(nodes)) == []
    ensures Passing(sqlRisky, nodes[i].call)
  {
    RisksExact(sqlRisky, nodes[i].call, Created(nodes), Batches(nodes));
    hide Risks;
    hide ConstraintTable;
    hide SingleLiteral;
  }

  /**
  A documented operation is found in every run in which the call is one, if and only if the lint has a finding anyway,
  or the call passes what is left to check: the table of a constraint made by the same upgrade, name and schema; the
  column of an add_column written out, nullable or with a default that is there, and without a constraint of its own
  on an old table; no `nullable`, `server_default` or `unique` that cannot be read.
  */
  lemma FoundExactly(sqlRisky: string -> bool, steady: bool, nodes: seq<AstNode>, i: nat)
    requires OperationAt(nodes, i)
    ensures AlwaysFound(sqlRisky, steady, nodes, i)
            <==> Risks(sqlRisky, nodes[i].call, Created(nodes), Batches(nodes)) != [] || Checked(steady, nodes, i)
  {
    if Risks(sqlRisky, nodes[i].call, Created(nodes), Batches(nodes)) == [] {
      SilentPasses(sqlRisky, nodes, i);
      hide *;
      HarmlessExactly(sqlRisky, steady, nodes, i);
      FoundIsHarmless(sqlRisky, steady, nodes, i);
    }
  }

  lemma FoundIsHarmless(sqlRisky: string -> bool, steady: bool, nodes: seq<AstNode>, i: nat)
    requires OperationAt(nodes, i) && Risks(sqlRisky, nodes[i].call, Created(nodes), Batches(nodes)) == []
    ensures AlwaysFound(sqlRisky, steady, nodes, i) <==> AlwaysHarmless(sqlRisky, steady, nodes, i)
  {
    hide Risks;
    hide Possible;
    hide Breaks;
  }

  // ---- which table the lint reads for a constraint ----

  /** The expression `_arg` looks at. */
  function ReadArgument(c: CallExpr, index: nat, name: string): Option<Expr> {
    if |c.args| > index then Some(c.args[index]) else Kw(c.keywords, name)
  }

  function LastItem(items: seq<WithItem>, x: string, before: Option<WithItem>): Option<WithItem> {
    if items == [] then before
    else LastItem(items[1..], x, if IsBatch(items[0]) && items[0].alias.value == x then Some(items[0]) else before)
  }

  /** The last batch anywhere in the upgrade that was given the name. */
  function LastBatch(nodes: seq<AstNode>, x: string): Option<WithItem> {
    if nodes == [] then None
    else
      var front, last := LastBatch(nodes[..|nodes| - 1], x), nodes[|nodes| - 1];
      if last.WithNode? then LastItem(last.items, x, front) else front
  }

  /** The name the lint reads a constraint's table from. */
  function SeenBy(nodes: seq<AstNode>, i: nat): Option<Expr>
    requires OperationAt(nodes, i)
  {
    var c := nodes[i].call;
    var item := LastBatch(nodes, Owner(c));
    if item.Some? && IsBatch(item.value) then ReadArgument(item.value.context.call, 0, "table_name")
    else if Op(c) == "create_foreign_key" then ReadArgument(c, 1, "source_table")
    else ReadArgument(c, 1, "table_name")
  }

  function ValueOf(e: Option<Expr>): Value { if e.Some? && e.value.Constant? then e.value.v else NoneValue }

  predicate Reads(batch: map<string, Value>, x: string, item: Option<WithItem>) {
    && (x in batch <==> item.Some?)
    && (item.Some? ==>
          IsBatch(item.value) && batch[x] == ValueOf(ReadArgument(item.value.context.call, 0, "table_name")))
  }

  lemma {:induction false} ItemsRead(items: seq<WithItem>, batch: map<string, Value>, x: string,
                                     before: Option<WithItem>)
    requires Reads(batch, x, before)
    ensures Reads(BatchItems(items, batch), x, LastItem(items, x, before))
  {
    if items != [] {
      var item := items[0];
      ItemsRead(items[1..], Noted(item, batch), x,
                if IsBatch(item) && item.alias.value == x then Some(item) else before);
    }
  }

  lemma {:induction false} BatchesRead(nodes: seq<AstNode>, x: string)
    ensures Reads(Batches(nodes), x, LastBatch(nodes, x))
  {
    if nodes != [] {
      BatchesRead(nodes[..|nodes| - 1], x);
      var last := nodes[|nodes| - 1];
      if last.WithNode? {
        ItemsRead(last.items, Batches(nodes[..|nodes| - 1]), x, LastBatch(nodes[..|nodes| - 1], x));
      }
    }
  }

  /** The lint knows the table by what it reads, and an unreadable name by nothing at all. */
  lemma SeenIs(nodes: seq<AstNode>, i: nat)
    requires OperationAt(nodes, i)
    ensures ConstraintTable(nodes[i].call, Batches(nodes)) == ValueOf(SeenBy(nodes, i))
  {
    BatchesRead(nodes, Owner(nodes[i].call));
  }

  predicate IsRead(e: Option<Expr>) { e.Some? && e.value.Constant? && e.value.v != NoneValue }

  function CreatedName(n: AstNode): Option<Expr>
    requires CreatesTable(n)
  {
    ReadArgument(n.call, 0, "table_name")
  }

  predicate NamedAt(nodes: seq<AstNode>, j: nat, e: Option<Expr>) {
    j < |nodes| && CreatesTable(nodes[j]) && CreatedName(nodes[j]) == e
  }

  /** Some create_table has exactly this literal for its table. */
  predicate Named(nodes: seq<AstNode>, e: Option<Expr>) { exists j | 0 <= j < |nodes| :: NamedAt(nodes, j, e) }

  /** Some create_table's own table cannot be read off the file. */
  predicate Unreadable(nodes: seq<AstNode>) {
    exists j | 0 <= j < |nodes| :: CreatesTable(nodes[j]) && !IsRead(CreatedName(nodes[j]))
  }

  lemma CreatedIs(nodes: seq<AstNode>, v: Value)
    ensures v in Created(nodes)
            <==> exists j | 0 <= j < |nodes| && CreatesTable(nodes[j]) :: ValueOf(CreatedName(nodes[j])) == v
  {
    if v in Created(nodes) {
      var n :| n in nodes && CreatesTable(n) && ArgValue(n.call, 0, "table_name") == v;
      var j :| 0 <= j < |nodes| && nodes[j] == n;
      assert ValueOf(CreatedName(nodes[j])) == v;
    }
    if j :| 0 <= j < |nodes| && CreatesTable(nodes[j]) && ValueOf(CreatedName(nodes[j])) == v {
      assert nodes[j] in nodes && ArgValue(nodes[j].call, 0, "table_name") == v;
    }
  }

  lemma NamedIs(nodes: seq<AstNode>, e: Option<Expr>)
    requires IsRead(e)
    ensures Named(nodes, e)
            <==> exists j | 0 <= j < |nodes| && CreatesTable(nodes[j]) :: ValueOf(CreatedName(nodes[j])) == ValueOf(e)
  {
    hide CreatedName;
    if Named(nodes, e) {
      var j :| 0 <= j < |nodes| && NamedAt(nodes, j, e);
      assert ValueOf(CreatedName(nodes[j])) == ValueOf(e);
    }
    if j :| 0 <= j < |nodes| && CreatesTable(nodes[j]) && ValueOf(CreatedName(nodes[j])) == ValueOf(e) {
      assert NamedAt(nodes, j, e);
    }
  }

  /**
  The lint passes a constraint exactly when the table it reads is some create_table's literal, or both are unreadable.
  */
  lemma SilentIs(sqlRisky: string -> bool, nodes: seq<AstNode>, i: nat)
    requires OperationAt(nodes, i) && AddsConstraint(nodes[i].call)
    ensures Risks(sqlRisky, nodes[i].call, Created(nodes), Batches(nodes)) == []
            <==> if IsRead(SeenBy(nodes, i)) then Named(nodes, SeenBy(nodes, i)) else Unreadable(nodes)
  {
    var seen := SeenBy(nodes, i);
    SeenIs(nodes, i);
    CreatedIs(nodes, ValueOf(seen));
    hide Created;
    hide SeenBy;
    hide CreatedName;
    hide ConstraintTable;
    if IsRead(seen) {
      NamedIs(nodes, seen);
    } else {
      forall j | 0 <= j < |nodes| && CreatesTable(nodes[j])
        ensures !IsRead(CreatedName(nodes[j])) <==> ValueOf(CreatedName(nodes[j])) == NoneValue
      {}
    }
  }

  function AsPassed(e: Option<Expr>): Passed { if e.Some? then Given(e.value) else Absent }

  predicate Written(c: CallExpr) { Unstarred(c.args) && !Doubled(c) }

  lemma WrittenIsRead(c: CallExpr, index: nat, name: string)
    requires Written(c)
    ensures ByPosition(c, index, name) == AsPassed(ReadArgument(c, index, name))
  {}

  /** Always made, on alembic's operations, written out, in no schema of its own and not only if it is missing. */
  predicate PlainCreate(n: AstNode) {
    CreatesTable(n) ==>
      && n.certain && ReceiverOf(n).OnOp? && Written(n.call)
      && SpotOf(n).schema.Absent? && ByKeyword(n.call, "if_not_exists").Absent?
  }

  lemma ConstraintChecked(steady: bool, nodes: seq<AstNode>, i: nat)
    requires OperationAt(nodes, i) && Op(nodes[i].call) in CONSTRAINT_OPS
    ensures Checked(steady, nodes, i) <==> SurelyNew(steady, nodes, i)
  {
    hide SurelyNew;
  }

  /**
  Where no schema is in play and the lint reads the name that is meant, a constraint on an old table is missed only if
  its table is unreadable beside an unreadable create_table.
  */
  lemma SameNameFound(sqlRisky: string -> bool, steady: bool, nodes: seq<AstNode>, i: nat)
    requires OperationAt(nodes, i) && Op(nodes[i].call) in CONSTRAINT_OPS && (forall n | n in nodes :: PlainCreate(n))
    requires SpotOf(nodes[i]) == Spot(AsPassed(SeenBy(nodes, i)), Absent)
    ensures AlwaysFound(sqlRisky, steady, nodes, i)
            <==> IsRead(SeenBy(nodes, i)) || !Unreadable(nodes) || SurelyNew(steady, nodes, i)
  {
    FoundExactly(sqlRisky, steady, nodes, i);
    ConstraintChecked(steady, nodes, i);
    SilentIs(sqlRisky, nodes, i);
    var seen := SeenBy(nodes, i);
    hide AlwaysFound;
    hide Checked;
    hide EffectOf;
    hide SeenBy;
    hide Risks;
    if IsRead(seen) && Named(nodes, seen) {
      var j :| 0 <= j < |nodes| && NamedAt(nodes, j, seen);
      assert PlainCreate(nodes[j]);
      CreatedHere(nodes[j]);
      hide SpotOf;
      assert MadeAt(steady, nodes, j, SpotOf(nodes[i]));
    }
  }

  lemma CreatedHere(n: AstNode)
    requires CreatesTable(n) && PlainCreate(n)
    ensures SpotOf(n) == Spot(AsPassed(CreatedName(n)), Absent)
  {
    WrittenIsRead(n.call, 0, "table_name");
    hide ByPosition;
    hide ReadArgument;
  }

  predicate InWith(nodes: seq<AstNode>, item: WithItem) { exists n | n in nodes :: n.WithNode? && item in n.items }

  /** Every batch the upgrade gives the name to is this one. */
  predicate OnlyBatch(nodes: seq<AstNode>, x: string, item: WithItem) {
    forall n, other | n in nodes && n.WithNode? && other in n.items && IsBatch(other) && other.alias.value == x ::
      other == item
  }

  lemma {:induction false} LastItemIs(items: seq<WithItem>, x: string, before: Option<WithItem>, item: WithItem)
    requires forall other | other in items && IsBatch(other) && other.alias.value == x :: other == item
    requires before.Some? ==> before.value == item
    ensures LastItem(items, x, before).Some? ==> LastItem(items, x, before).value == item
    ensures before.Some? || (item in items && IsBatch(item) && item.alias.value == x)
            ==> LastItem(items, x, before).Some?
  {
    if items != [] {
      var next := if IsBatch(items[0]) && items[0].alias.value == x then Some(items[0]) else before;
      assert item in items ==> item == items[0] || item in items[1..];
      LastItemIs(items[1..], x, next, item);
    }
  }

  lemma {:induction false} LastBatchIs(nodes: seq<AstNode>, x: string, item: WithItem)
    requires OnlyBatch(nodes, x, item)
    ensures LastBatch(nodes, x).Some? ==> LastBatch(nodes, x).value == item
    ensures InWith(nodes, item) && IsBatch(item) && item.alias.value == x ==> LastBatch(nodes, x).Some?
  {
    if nodes != [] {
      var front, last := nodes[..|nodes| - 1], nodes[|nodes| - 1];
      assert nodes == front + [last];
      LastBatchIs(front, x, item);
      if last.WithNode? {
        LastItemIs(last.items, x, LastBatch(front, x), item);
      }
    }
  }

  /** A name given to one batch only in the whole upgrade is read as it is meant. */
  lemma OneBatchIsRead(nodes: seq<AstNode>, i: nat, item: WithItem)
    requires OperationAt(nodes, i) && nodes[i].call.func.value.Name?
    requires Enclosing(nodes[i].within, nodes[i].call.func.value.id) == Some(item) && IsBatch(item)
    requires InWith(nodes, item) && OnlyBatch(nodes, nodes[i].call.func.value.id, item)
    ensures SeenBy(nodes, i) == ReadArgument(item.context.call, 0, "table_name")
    ensures Written(item.context.call) ==> SpotOf(nodes[i]).name == AsPassed(SeenBy(nodes, i))
  {
    EnclosingBinds(nodes[i].within, nodes[i].call.func.value.id);
    LastBatchIs(nodes, nodes[i].call.func.value.id, item);
    if Written(item.context.call) {
      WrittenIsRead(item.context.call, 0, "table_name");
    }
    hide LastBatch;
    hide ByPosition;
    hide ReadArgument;
  }

  lemma {:induction false} EnclosingBinds(within: seq<WithItem>, x: string)
    ensures Enclosing(within, x).Some? ==> Enclosing(within, x).value.alias == Some(x)
  {
    if within != [] {
      EnclosingBinds(within[..|within| - 1], x);
    }
  }

  // ---- a whole upgrade ----

  /** Nothing the upgrade does in this run is one of the documented operations. */
  ghost predicate TrulyHarmless(sqlRisky: string -> bool, run: Run, nodes: seq<AstNode>) {
    forall i | 0 <= i < |nodes| && IsOperation(nodes[i]) :: !Breaks(sqlRisky, run, nodes, i)
  }

  predicate AllChecked(steady: bool, nodes: seq<AstNode>) {
    forall i | 0 <= i < |nodes| && IsOperation(nodes[i]) :: Checked(steady, nodes, i)
  }

  /**
  Without a finding, an upgrade is harmless in every run if and only if each of its calls passes what is left to check.
  */
  ghost predicate QuietIsChecked(sqlRisky: string -> bool, steady: bool, nodes: seq<AstNode>) {
    (forall run | Possible(steady, run) :: TrulyHarmless(sqlRisky, run, nodes)) <==> AllChecked(steady, nodes)
  }

  lemma NoneFlagged(sqlRisky: string -> bool, nodes: seq<AstNode>, i: nat)
    requires Found(sqlRisky, nodes, Created(nodes), Batches(nodes)) == [] && OperationAt(nodes, i)
    ensures Risks(sqlRisky, nodes[i].call, Created(nodes), Batches(nodes)) == []
  {
    FoundExact(sqlRisky, nodes, Created(nodes), Batches(nodes));
    RisksExact(sqlRisky, nodes[i].call, Created(nodes), Batches(nodes));
    hide Risks;
    hide Found;
    hide Flagged;
    assert nodes[i] in nodes;
  }

  lemma QuietExactly(sqlRisky: string -> bool, steady: bool, nodes: seq<AstNode>)
    requires Found(sqlRisky, nodes, Created(nodes), Batches(nodes)) == []
    ensures QuietIsChecked(sqlRisky, steady, nodes)
  {
    hide Found;
    hide Checked;
    hide Breaks;
    hide Possible;
    hide Passing;
    forall i | 0 <= i < |nodes| && IsOperation(nodes[i])
      ensures AlwaysHarmless(sqlRisky, steady, nodes, i) <==> Checked(steady, nodes, i)
    {
      NoneFlagged(sqlRisky, nodes, i);
      SilentPasses(sqlRisky, nodes, i);
      HarmlessExactly(sqlRisky, steady, nodes, i);
    }
    if !AllChecked(steady, nodes) {
      var i :| 0 <= i < |nodes| && IsOperation(nodes[i]) && !Checked(steady, nodes, i);
      assert !AlwaysHarmless(sqlRisky, steady, nodes, i);
    }
  }

  // ---- which upgrade runs ----

  predicate Binds(s: Stmt, x: string) {
    match s
    case FunctionStmt(def) => def.name == x
    case AssignStmt(names, _) => x in names
    case OtherStmt(binds) => x in binds
  }

  /** Where a module-level name gets the value it has in the end. */
  function BoundAt(tree: Tree, x: string): (k: Option<nat>)
    ensures k.Some? ==>
              k.value < |tree| && Binds(tree[k.value], x) && forall j | k.value < j < |tree| :: !Binds(tree[j], x)
    ensures k.None? ==> forall j | 0 <= j < |tree| :: !Binds(tree[j], x)
  {
    if tree == [] then None
    else if Binds(tree[|tree| - 1], x) then Some(|tree| - 1)
    else BoundAt(tree[..|tree| - 1], x)
  }

  predicate PlainUpgrade(s: Stmt) { s.FunctionStmt? && !s.def.isAsync && s.def.name == "upgrade" }

  /** Where the upgrade stands that the lint judges: the first plain definition. */
  function JudgedAt(tree: Tree): (k: Option<nat>)
    ensures k.Some? ==> k.value < |tree| && PlainUpgrade(tree[k.value]) && Upgrade(tree) == Some(tree[k.value].def)
                        && forall j | 0 <= j < k.value :: !PlainUpgrade(tree[j])
    ensures k.None? ==> Upgrade(tree).None? && forall j | 0 <= j < |tree| :: !PlainUpgrade(tree[j])
  {
    if tree == [] then None
    else if PlainUpgrade(tree[0]) then Some(0)
    else
      match JudgedAt(tree[1..])
      case None => None
      case Some(k) => Some(k + 1)
  }

  datatype Running = Nothing | Body(def: Def) | Unseen

  /** A definition as it stands: a decorator may put anything in its place. */
  predicate IsDefinition(s: Stmt) { s.FunctionStmt? && !s.def.decorated }

  /** What running the migration runs: the last value of `upgrade`; an async one is called and never awaited. */
  function Runs(tree: Tree): Running {
    match BoundAt(tree, "upgrade")
    case None => Nothing
    case Some(k) =>
      if !IsDefinition(tree[k]) then Unseen else if tree[k].def.isAsync then Nothing else Body(tree[k].def)
  }

  /** What runs is what the lint judged, or nothing at all. */
  predicate Covered(tree: Tree) {
    match Runs(tree)
    case Nothing => true
    case Body(_) => JudgedAt(tree) == BoundAt(tree, "upgrade")
    case Unseen => false
  }

  /** The file's last word on `upgrade` is its first plain definition of it, undecorated. */
  predicate LastIsFirst(tree: Tree, k: nat) {
    && k < |tree| && PlainUpgrade(tree[k]) && IsDefinition(tree[k])
    && (forall j | 0 <= j < k :: !PlainUpgrade(tree[j])) && (forall j | k < j < |tree| :: !Binds(tree[j], "upgrade"))
  }

  predicate LastIsAsync(tree: Tree, k: nat) {
    && k < |tree| && IsDefinition(tree[k]) && tree[k].def.name == "upgrade" && tree[k].def.isAsync
    && forall j | k < j < |tree| :: !Binds(tree[j], "upgrade")
  }

  /**
  What runs is covered by the lint exactly when nothing binds `upgrade`, or the first plain definition of it is the last
  thing that does, or an async definition is, and no decorator stands before either.
  */
  lemma CoveredExactly(tree: Tree)
    ensures Covered(tree) <==>
              || (forall j | 0 <= j < |tree| :: !Binds(tree[j], "upgrade"))
              || (exists k :: LastIsFirst(tree, k)) || (exists k :: LastIsAsync(tree, k))
  {
    var bound, judged := BoundAt(tree, "upgrade"), JudgedAt(tree);
    if bound.Some? {
      var k := bound.value;
      assert Runs(tree).Body? && judged == bound ==> LastIsFirst(tree, k);
      assert IsDefinition(tree[k]) && tree[k].def.isAsync ==> LastIsAsync(tree, k);
      forall m: nat | LastIsFirst(tree, m) || LastIsAsync(tree, m)
        ensures m == k && Binds(tree[m], "upgrade")
      {}
    }
  }

  /** The name stands for a definition in the end. */
  predicate EndsDefined(tree: Tree, n: string) { BoundAt(tree, n).Some? && IsDefinition(tree[BoundAt(tree, n).value]) }

  /** The module-level functions as they are when upgrade() runs. */
  function RunDefs(tree: Tree): map<string, Def> {
    map n | n in Defs(tree) && EndsDefined(tree, n) :: tree[BoundAt(tree, n).value].def
  }

  /** No function's name is given to something else later, or to what a decorator makes of it. */
  predicate Settled(tree: Tree) { forall n | n in Defs(tree) :: EndsDefined(tree, n) }

  lemma {:induction false} LastDefinition(tree: Tree, n: string)
    requires n in Defs(tree)
    ensures BoundAt(tree, n).Some?
    ensures tree[BoundAt(tree, n).value].FunctionStmt? ==> tree[BoundAt(tree, n).value].def == Defs(tree)[n]
  {
    var front, last := tree[..|tree| - 1], tree[|tree| - 1];
    if !(last.FunctionStmt? && last.def.name == n) {
      LastDefinition(front, n);
    }
  }

  /** The functions the lint follows are the functions that run, exactly when no such name is given away. */
  lemma SettledDefs(tree: Tree)
    ensures RunDefs(tree) == Defs(tree) <==> Settled(tree)
  {
    forall n | n in Defs(tree)
      ensures n in RunDefs(tree) ==> RunDefs(tree)[n] == Defs(tree)[n]
    {
      LastDefinition(tree, n);
    }
    assert forall n :: n in RunDefs(tree) <==> n in Defs(tree) && EndsDefined(tree, n);
    assert RunDefs(tree) == Defs(tree) ==> RunDefs(tree).Keys == Defs(tree).Keys;
  }

  // ---- what a clean lint and an accepted check promise of the run ----

  /** What runs is harmless in every run if and only if each of its calls passes what is left to check. */
  ghost predicate RunIsChecked(sqlRisky: string -> bool, steady: bool, tree: Tree) {
    Runs(tree).Body? ==> QuietIsChecked(sqlRisky, steady, Nodes(Bodies(RunDefs(tree), Runs(tree).def)))
  }

  lemma QuietRuns(sqlRisky: string -> bool, steady: bool, tree: Tree)
    requires UnflaggedUpgrade(sqlRisky, tree) && Covered(tree) && Settled(tree)
    ensures RunIsChecked(sqlRisky, steady, tree)
  {
    SettledDefs(tree);
    hide RunDefs;
    hide Defs;
    hide Unflagged;
    hide QuietIsChecked;
    if Runs(tree).Body? {
      var bodies := Bodies(Defs(tree), Upgrade(tree).value);
      FoundNothing(sqlRisky, bodies);
      QuietExactly(sqlRisky, steady, Nodes(bodies));
    }
  }

  datatype Migration = Migration(tree: Tree, down: seq<Rev>)

  /** The revision graph the check reads: each migration's declared flag and its parents. */
  function ScriptOf(repo: map<Rev, Migration>): Script {
    map v | v in repo :: Revision(Flag(repo[v].tree), repo[v].down)
  }

  /**
  A clean lint and an accepted check, of every migration between the two revisions and every one the older release
  does not know: it declares itself safe, and unless a reviewed reason is declared nothing in its judged upgrade is
  flagged.  Where the judged upgrade is the one that runs, it does nothing the documentation lists, whatever its names
  stand for, if and only if each of its calls passes what the lint has left to check.
  */
  lemma LintAndCheck(sqlRisky: string -> bool, steady: bool, repo: map<Rev, Migration>, db: Rev, target: Rev, r: Report,
                     m: Rev)
    requires forall v | v in repo :: Linted(sqlRisky, repo[v].tree)
    requires IsReport(ScriptOf(repo), db, target, r) && Accepts(r)
    requires m in r.between || New(ScriptOf(repo), db, target, m)
    ensures m in repo && Says(repo[m].tree, true)
    ensures GivesReason(repo[m].tree)
            || (UnflaggedUpgrade(sqlRisky, repo[m].tree)
                && (Covered(repo[m].tree) && Settled(repo[m].tree) ==> RunIsChecked(sqlRisky, steady, repo[m].tree)))
  {
    var s := ScriptOf(repo);
    if New(s, db, target, m) {
      AcceptedIsSafe(s, db, target, r, m);
    } else {
      UnsafeEmpty(s, r.between);
    }
    FlagSays(repo[m].tree);
    hide UnflaggedUpgrade;
    hide RunIsChecked;
    hide Says;
    hide GivesReason;
    if UnflaggedUpgrade(sqlRisky, repo[m].tree) && Covered(repo[m].tree) && Settled(repo[m].tree) {
      QuietRuns(sqlRisky, steady, repo[m].tree);
    }
  }
}
