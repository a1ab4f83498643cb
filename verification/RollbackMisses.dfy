/** Migrations the lint passes although an older release may not survive them, and what each does when it runs. */
module RollbackMisses {
  import opened Wrappers
  import opened MigrationBodies
  import opened RollbackLint
  import opened RollbackRuns
  import opened RollbackTruth

  // ---- documented operations the lint does not find ----

  function Literal(s: string): Expr { Constant(StrValue(s)) }

  function OpCall(operation: string, args: seq<Expr>, keywords: seq<Keyword>): CallExpr {
    CallExpr(Attribute(operation, Name("op")), args, keywords)
  }

  function LibraryCall(made: string, args: seq<Expr>, keywords: seq<Keyword>): Expr {
    Call(CallExpr(Attribute(made, Name("sa")), args, keywords))
  }

  function With(name: string, value: Expr): Keyword { Keyword(Some(name), value) }

  /** A call at the top of the upgrade. */
  function Do(c: CallExpr): AstNode { CallNode(c, [], true) }

  function DoWith(c: CallExpr, item: WithItem): AstNode { CallNode(c, [item], true) }

  /** In every run the call is a documented operation, and the lint finds nothing. */
  ghost predicate Missed(sqlRisky: string -> bool, nodes: seq<AstNode>, i: nat)
    requires OperationAt(nodes, i)
  {
    && Risks(sqlRisky, nodes[i].call, Created(nodes), Batches(nodes)) == []
    && forall run | Agrees(run) :: Breaks(sqlRisky, run, nodes, i)
  }

  lemma AddSilent(sqlRisky: string -> bool, c: CallExpr, created: set<Value>, batch: map<string, Value>)
    requires c.func.Attribute? && Op(c) == "add_column" && forall a | a in c.args :: !IsNotNullColumn(a)
    ensures Risks(sqlRisky, c, created, batch) == []
  {
    RisksExact(sqlRisky, c, created, batch);
    hide Risks;
    hide IsNotNullColumn;
  }

  predicate NothingCreated(nodes: seq<AstNode>) { forall n | n in nodes :: !CreatesTable(n) }

  lemma AddBreaks(sqlRisky: string -> bool, run: Run, nodes: seq<AstNode>, i: nat, column: CallExpr)
    requires OperationAt(nodes, i) && Op(nodes[i].call) == "add_column" && NothingCreated(nodes)
    requires run.made(i, nodes[i].certain)
    requires ColumnSpot(nodes[i]) == Given(Call(column)) && IsColumn(Call(column))
    requires Constrained(run, i, column) || (NotNull(run, i, column) && !Defaulted(run, i, column))
    ensures Breaks(sqlRisky, run, nodes, i)
  {
    assert OnOldTable(run, nodes, i);
    hide Constrained;
    hide NotNull;
    hide Defaulted;
    hide OnOldTable;
    hide ColumnSpot;
    hide IsColumn;
    assert AddsHard(run, nodes, i);
  }

  function Bool(b: bool): Expr { Constant(BoolValue(b)) }

  lemma LibraryCalls(made: string, args: seq<Expr>, keywords: seq<Keyword>)
    ensures FromLibrary(LibraryCall(made, args, keywords))
  {
    assert Root(Attribute(made, Name("sa"))) == "sa";
  }

  lemma IsLibraryColumn(args: seq<Expr>, keywords: seq<Keyword>)
    ensures IsColumn(LibraryCall("Column", args, keywords))
  {
    LibraryCalls("Column", args, keywords);
  }

  lemma KwTwo(a: Keyword, b: Keyword, name: string)
    ensures Kw([a], name) == if a.arg == Some(name) then Some(a.value) else None
    ensures Kw([a, b], name)
            == if a.arg == Some(name) then Some(a.value) else if b.arg == Some(name) then Some(b.value) else None
  {
    assert [a, b][1..] == [b] && [a][1..] == [] && [b][1..] == [];
  }

  /** Where op.add_column has its column, by position or by name. */
  lemma ColumnWritten(table: Expr, column: Expr)
    requires !table.Starred? && !column.Starred?
    ensures ColumnSpot(Do(OpCall("add_column", [table, column], []))) == Given(column)
    ensures ColumnSpot(Do(OpCall("add_column", [table], [With("column", column)]))) == Given(column)
  {
    assert [table, column][..2] == [table, column] && [table][..1] == [table];
    assert IsOp(Name("op"));
  }

  /** Where alembic's operations have their table: first to make a table or a column, else second, or by its name. */
  lemma TableWritten(operation: string, first: Expr, second: Expr, more: Expr)
    requires !first.Starred? && !second.Starred? && !more.Starred?
    requires operation == "create_unique_constraint" || operation == "create_check_constraint"
             || operation == "create_primary_key" || operation == "create_index"
    ensures SpotOf(Do(OpCall(operation, [first, second, more], []))) == Spot(Given(second), Absent)
    ensures SpotOf(Do(OpCall(operation, [first], [With("table_name", second), With("schema", more)])))
            == Spot(Given(second), Given(more))
    ensures SpotOf(Do(OpCall("create_foreign_key", [first, second, more], []))) == Spot(Given(second), Absent)
    ensures SpotOf(Do(OpCall("create_foreign_key", [first],
                             [With("source_table", second), With("source_schema", more)])))
            == Spot(Given(second), Given(more))
    ensures SpotOf(Do(OpCall("create_table", [first, second, more], []))) == Spot(Given(first), Absent)
    ensures SpotOf(Do(OpCall("add_column", [first, second], [With("schema", more)]))) == Spot(Given(first), Given(more))
  {
    var three, two, one := [first, second, more], [first, second], [first];
    assert three[..2] == [first, second] && three[..1] == [first] && two[..1] == [first] && one[..1] == [first];
    assert IsOp(Name("op"));
    KwTwo(With("table_name", second), With("schema", more), "table_name");
    KwTwo(With("table_name", second), With("schema", more), "schema");
    KwTwo(With("source_table", second), With("source_schema", more), "source_table");
    KwTwo(With("source_table", second), With("source_schema", more), "source_schema");
    KwTwo(With("schema", more), With("schema", more), "schema");
  }

  /**
  What stands in a column: keys and checks constrain it, identities and computed values fill it, a type does neither.
  */
  lemma ItemsWritten(args: seq<Expr>)
    ensures KindOf(LibraryCall("ForeignKey", args, [])) == Some(Constraining)
    ensures KindOf(LibraryCall("CheckConstraint", args, [])) == Some(Constraining)
    ensures KindOf(LibraryCall("Identity", args, [])) == Some(Defaulting)
    ensures KindOf(LibraryCall("Computed", args, [])) == Some(Defaulting)
    ensures KindOf(LibraryCall("Integer", args, [])) == Some(Harmless)
    ensures KindOf(LibraryCall("Boolean", args, [With("create_constraint", Bool(true))])) == None
  {
    LibraryCalls("ForeignKey", args, []);
    LibraryCalls("CheckConstraint", args, []);
    LibraryCalls("Identity", args, []);
    LibraryCalls("Computed", args, []);
    LibraryCalls("Integer", args, []);
    LibraryCalls("Boolean", args, [With("create_constraint", Bool(true))]);
  }

  function UniqueColumn(): Expr {
    LibraryCall("Column", [Literal("x")], [With("unique", Bool(true)), With("server_default", Literal("0"))])
  }

  /** A column that is UNIQUE by itself, on an old table. */
  lemma InlineUniquePasses(sqlRisky: string -> bool)
    ensures Missed(sqlRisky, [Do(OpCall("add_column", [Literal("old"), UniqueColumn()], []))], 0)
  {
    var column := UniqueColumn();
    var c := OpCall("add_column", [Literal("old"), column], []);
    var nodes := [Do(c)];
    assert |"unique"| != |"nullable"| && |"server_default"| != |"nullable"|;
    KwTwo(With("unique", Bool(true)), With("server_default", Literal("0")), "nullable");
    IsLibraryColumn([Literal("x")], column.call.keywords);
    ColumnWritten(Literal("old"), column);
    AddSilent(sqlRisky, c, Created(nodes), Batches(nodes));
    forall run | Agrees(run)
      ensures Breaks(sqlRisky, run, nodes, 0)
    {
      ArgumentAgrees(run, 0, Unique, ByKeyword(column.call, "unique"));
      AddBreaks(sqlRisky, run, nodes, 0, column.call);
    }
  }

  function NoneColumn(): Expr {
    LibraryCall("Column", [Literal("x")], [With("nullable", Bool(false)), With("server_default", Constant(NoneValue))])
  }

  /** A NOT NULL column whose server default is written as None. */
  lemma NoneDefaultPasses(sqlRisky: string -> bool)
    ensures Missed(sqlRisky, [Do(OpCall("add_column", [Literal("old"), NoneColumn()], []))], 0)
  {
    var column := NoneColumn();
    var c := OpCall("add_column", [Literal("old"), column], []);
    var nodes := [Do(c)];
    KwTwo(With("nullable", Bool(false)), With("server_default", Constant(NoneValue)), "server_default");
    IsLibraryColumn([Literal("x")], column.call.keywords);
    ColumnWritten(Literal("old"), column);
    AddSilent(sqlRisky, c, Created(nodes), Batches(nodes));
    forall run | Agrees(run)
      ensures Breaks(sqlRisky, run, nodes, 0)
    {
      BareNotNull(run, column.call);
      AddBreaks(sqlRisky, run, nodes, 0, column.call);
    }
  }

  /** A column of one name, NOT NULL, without a default or with None for it. */
  lemma BareNotNull(run: Run, c: CallExpr)
    requires Agrees(run) && c.args == [Literal("x")] && c.keywords != []
             && c.keywords[0] == With("nullable", Bool(false))
    requires c.keywords[1..] == [] || c.keywords[1..] == [With("server_default", Constant(NoneValue))]
    ensures NotNull(run, 0, c) && !Defaulted(run, 0, c)
  {
    ArgumentAgrees(run, 0, Nullable, ByKeyword(c, "nullable"));
    ArgumentAgrees(run, 0, ServerDefault, ByKeyword(c, "server_default"));
    assert Kw(c.keywords, "server_default") == Kw(c.keywords[1..], "server_default");
    assert Kw(c.keywords, "type_") == Kw(c.keywords[1..], "type_") == None;
    assert KindOf(Literal("x")) == Some(Harmless);
    assert Items(c) == [Literal("x")];
  }

  /** A NOT NULL column passed by name. */
  lemma KeywordColumnPasses(sqlRisky: string -> bool)
    ensures var column := LibraryCall("Column", [Literal("x")], [With("nullable", Bool(false))]);
            Missed(sqlRisky, [Do(OpCall("add_column", [Literal("old")], [With("column", column)]))], 0)
  {
    var column := LibraryCall("Column", [Literal("x")], [With("nullable", Bool(false))]);
    var c := OpCall("add_column", [Literal("old")], [With("column", column)]);
    var nodes := [Do(c)];
    IsLibraryColumn([Literal("x")], column.call.keywords);
    ColumnWritten(Literal("old"), column);
    AddSilent(sqlRisky, c, Created(nodes), Batches(nodes));
    forall run | Agrees(run)
      ensures Breaks(sqlRisky, run, nodes, 0)
    {
      BareNotNull(run, column.call);
      AddBreaks(sqlRisky, run, nodes, 0, column.call);
    }
  }

  lemma KeyConstrains(args: seq<Expr>, keywords: seq<Keyword>)
    ensures KindOf(LibraryCall("ForeignKey", args, keywords)) == Some(Constraining)
  {
    LibraryCalls("ForeignKey", args, keywords);
  }

  function BatchOn(table: string, name: string): WithItem {
    WithItem(Call(OpCall("batch_alter_table", [Literal(table)], [])), Some(name))
  }

  function AccountKey(): Expr {
    LibraryCall("ForeignKey", [Literal("broker_accounts.id")], [With("ondelete", Literal("SET NULL"))])
  }

  function KeyColumn(): Expr {
    LibraryCall("Column", [Literal("broker_account_id"), LibraryCall("Integer", [], []), AccountKey()],
                [With("nullable", Bool(true))])
  }

  /** What the migration of the routing policies does to the trades: a FOREIGN KEY inside add_column, in a batch. */
  lemma InlineForeignKeyPasses(sqlRisky: string -> bool)
    ensures var add := CallExpr(Attribute("add_column", Name("batch")), [KeyColumn()], []);
            Missed(sqlRisky, [WithNode([BatchOn("trades", "batch")]), DoWith(add, BatchOn("trades", "batch"))], 1)
  {
    var key, column := AccountKey(), KeyColumn();
    var add := CallExpr(Attribute("add_column", Name("batch")), [column], []);
    var nodes := [WithNode([BatchOn("trades", "batch")]), DoWith(add, BatchOn("trades", "batch"))];
    IsLibraryColumn(column.call.args, column.call.keywords);
    KwTwo(With("nullable", Bool(true)), With("nullable", Bool(true)), "type_");
    KwTwo(With("nullable", Bool(true)), With("nullable", Bool(true)), "nullable");
    AddSilent(sqlRisky, add, Created(nodes), Batches(nodes));
    assert ColumnSpot(nodes[1]) == Given(column) by { assert add.args[..1] == add.args; }
    KeyConstrains(key.call.args, key.call.keywords);
    assert key in Items(column.call) by { assert key == column.call.args[2]; }
    forall run | Agrees(run)
      ensures Breaks(sqlRisky, run, nodes, 1)
    {
      assert run.kind(1, key) == Constraining;
      assert Constrained(run, 1, column.call);
      AddBreaks(sqlRisky, run, nodes, 1, column.call);
    }
  }

  function TwoSchemas(): seq<AstNode> {
    [Do(OpCall("create_table", [Literal("t")], [With("schema", Literal("fresh"))])),
     Do(OpCall("create_unique_constraint", [Literal("u"), Literal("t")], [With("schema", Literal("public"))]))]
  }

  lemma TwoSchemasSilent(sqlRisky: string -> bool)
    ensures Risks(sqlRisky, TwoSchemas()[1].call, Created(TwoSchemas()), Batches(TwoSchemas())) == []
  {
    var nodes := TwoSchemas();
    NoBatches(nodes, "op");
    assert SeenBy(nodes, 1) == CreatedName(nodes[0]) == Some(Literal("t"));
    assert NamedAt(nodes, 0, SeenBy(nodes, 1));
    hide SeenBy;
    hide CreatedName;
    hide Risks;
    SilentIs(sqlRisky, nodes, 1);
  }

  /** A constraint on a table of the same name as a new one, in another schema. */
  lemma OtherSchemaPasses(sqlRisky: string -> bool)
    ensures Missed(sqlRisky, TwoSchemas(), 1)
  {
    var nodes := TwoSchemas();
    TwoSchemasSilent(sqlRisky);
    hide Risks;
    assert |"fresh"| != |"public"|;
    forall run | Agrees(run)
      ensures Breaks(sqlRisky, run, nodes, 1)
    {
      ArgumentAgrees(run, 0, SchemaName, SpotOf(nodes[0]).schema);
      ArgumentAgrees(run, 1, SchemaName, SpotOf(nodes[1]).schema);
      hide Agrees;
      assert TableAt(run, nodes, 0).schema == StrValue("fresh") && TableAt(run, nodes, 1).schema == StrValue("public");
      assert OnOldTable(run, nodes, 1);
    }
  }

  lemma {:induction false} NoBatches(nodes: seq<AstNode>, x: string)
    requires forall n | n in nodes :: !n.WithNode?
    ensures LastBatch(nodes, x) == None
  {
    if nodes != [] {
      NoBatches(nodes[..|nodes| - 1], x);
    }
  }

  function ReusedName(constrain: CallExpr): seq<AstNode> {
    var first, second := BatchOn("old", "batch_op"), BatchOn("new", "batch_op");
    [Do(OpCall("create_table", [Literal("new")], [])), WithNode([first]), DoWith(constrain, first),
     WithNode([second])]
  }

  lemma ReusedIsSilent(sqlRisky: string -> bool, constrain: CallExpr)
    requires constrain.func == Attribute("create_unique_constraint", Name("batch_op"))
    ensures var nodes := ReusedName(constrain); Risks(sqlRisky, constrain, Created(nodes), Batches(nodes)) == []
  {
    var nodes := ReusedName(constrain);
    var second := BatchOn("new", "batch_op");
    assert LastBatch(nodes, "batch_op") == LastItem([second], "batch_op", LastBatch(nodes[..3], "batch_op"))
           == Some(second);
    assert SeenBy(nodes, 2) == CreatedName(nodes[0]) == Some(Literal("new"));
    assert NamedAt(nodes, 0, SeenBy(nodes, 2));
    hide LastBatch;
    hide SeenBy;
    hide CreatedName;
    hide Risks;
    SilentIs(sqlRisky, nodes, 2);
  }

  lemma ReusedSpots(constrain: CallExpr)
    requires constrain.func == Attribute("create_unique_constraint", Name("batch_op"))
    ensures var nodes := ReusedName(constrain);
            && SpotOf(nodes[0]).name == Given(Literal("new")) && SpotOf(nodes[2]).name == Given(Literal("old"))
            && forall j | 0 < j < 4 :: !CreatesTable(nodes[j])
  {
    assert [Literal("new")][..1] == [Literal("new")] && [Literal("old")][..1] == [Literal("old")];
  }

  /**
  One name for two batches: a constraint in the first, on an old table, is taken for one on the second's new table.
  */
  lemma ReusedBatchNamePasses(sqlRisky: string -> bool, constrain: CallExpr)
    requires constrain.func == Attribute("create_unique_constraint", Name("batch_op"))
    ensures Missed(sqlRisky, ReusedName(constrain), 2)
  {
    var nodes := ReusedName(constrain);
    ReusedIsSilent(sqlRisky, constrain);
    ReusedSpots(constrain);
    hide Risks;
    hide SpotOf;
    assert "new"[0] != "old"[0];
    forall run | Agrees(run)
      ensures Breaks(sqlRisky, run, nodes, 2)
    {
      ArgumentAgrees(run, 0, TableName, SpotOf(nodes[0]).name);
      ArgumentAgrees(run, 2, TableName, SpotOf(nodes[2]).name);
      hide Agrees;
      assert OnOldTable(run, nodes, 2);
    }
  }

  // ---- ... in some run ----

  predicate CertainCreate(n: AstNode) {
    CreatesTable(n) && n.certain && ByKeyword(n.call, "if_not_exists").Absent?
  }

  lemma MissedRun(sqlRisky: string -> bool, steady: bool, nodes: seq<AstNode>, i: nat) returns (run: Run)
    requires OperationAt(nodes, i) && !Checked(steady, nodes, i)
    requires Risks(sqlRisky, nodes[i].call, Created(nodes), Batches(nodes)) == []
    ensures Possible(steady, run) && Breaks(sqlRisky, run, nodes, i)
    ensures forall j | 0 <= j < |nodes| && CertainCreate(nodes[j]) :: Makes(run, nodes, j, TableAt(run, nodes, j))
  {
    SilentPasses(sqlRisky, nodes, i);
    var n := SomeLength(nodes);
    var mine := SpotOf(nodes[i]);
    hide *;
    run := Worst(steady, mine, i, n);
    LongEnough(nodes, n);
    WorstIsPossible(steady, mine, i, n);
    BreaksUnlessChecked(sqlRisky, steady, nodes, i, n);
    PossibleMakes(steady, run, nodes);
  }

  lemma LongEnough(nodes: seq<AstNode>, n: nat)
    requires AllShort(nodes, n)
    ensures n > 0
  {}

  lemma PossibleMakes(steady: bool, run: Run, nodes: seq<AstNode>)
    requires Possible(steady, run)
    ensures forall j | 0 <= j < |nodes| && CertainCreate(nodes[j]) :: Makes(run, nodes, j, TableAt(run, nodes, j))
  {
    hide ByKeyword;
    hide TableAt;
    hide Fits;
    hide KindOf;
    hide Steady;
  }

  /** Two names read from two variables: a run in which one is a new table and the other an old one passes. */
  lemma UnreadableTablePasses(sqlRisky: string -> bool, steady: bool) returns (run: Run)
    ensures var create := OpCall("create_table", [Name("fresh")], []);
            var constrain := OpCall("create_unique_constraint", [Literal("u"), Name("old")], []);
            var nodes := [Do(create), Do(constrain)];
            && Possible(steady, run) && Breaks(sqlRisky, run, nodes, 1) && Makes(run, nodes, 0, TableAt(run, nodes, 0))
            && Risks(sqlRisky, constrain, Created(nodes), Batches(nodes)) == []
  {
    var create := OpCall("create_table", [Name("fresh")], []);
    var constrain := OpCall("create_unique_constraint", [Literal("u"), Name("old")], []);
    var nodes := [Do(create), Do(constrain)];
    NoBatches(nodes, "op");
    assert SeenBy(nodes, 1) == Some(Name("old")) && CreatedName(nodes[0]) == Some(Name("fresh"));
    SilentIs(sqlRisky, nodes, 1);
    TwoVariables(steady, create, constrain);
    hide SeenBy;
    hide Checked;
    hide Breaks;
    hide Possible;
    run := MissedRun(sqlRisky, steady, nodes, 1);
  }

  lemma TwoVariables(steady: bool, create: CallExpr, constrain: CallExpr)
    requires create == OpCall("create_table", [Name("fresh")], [])
    requires constrain == OpCall("create_unique_constraint", [Literal("u"), Name("old")], [])
    ensures !Checked(steady, [Do(create), Do(constrain)], 1)
  {
    assert constrain.args[..2] == constrain.args && create.args[..1] == create.args;
    assert |"fresh"| != |"old"|;
    assert SpotOf(Do(create)) == Spot(Given(Name("fresh")), Absent);
    assert SpotOf(Do(constrain)) == Spot(Given(Name("old")), Absent);
  }

  /** NOT NULL read from a variable. */
  lemma VariableNotNullPasses(sqlRisky: string -> bool, steady: bool) returns (run: Run)
    ensures var alter := OpCall("alter_column", [Literal("old"), Literal("x")], [With("nullable", Name("loose"))]);
            var nodes := [Do(alter)];
            && Possible(steady, run) && Breaks(sqlRisky, run, nodes, 0)
            && Risks(sqlRisky, alter, Created(nodes), Batches(nodes)) == []
  {
    var alter := OpCall("alter_column", [Literal("old"), Literal("x")], [With("nullable", Name("loose"))]);
    var nodes := [Do(alter)];
    assert Kw(alter.keywords, "nullable") == Some(Name("loose"));
    assert forall other | other in {"new_column_name", "type_", "server_default"} :: Kw(alter.keywords, other) == None;
    assert !AlterChecked(alter);
    hide AlterChecked;
    hide Breaks;
    hide Possible;
    run := MissedRun(sqlRisky, steady, nodes, 0);
  }

  /** One variable for both names is no miss where a variable names one table, and may be one where it does not. */
  lemma OneVariable()
    ensures var create := OpCall("create_table", [Name("table")], []);
            var constrain := OpCall("create_unique_constraint", [Literal("u"), Name("table")], []);
            var nodes := [Do(create), Do(constrain)];
            Checked(true, nodes, 1) && !Checked(false, nodes, 1)
  {
    var create := OpCall("create_table", [Name("table")], []);
    var constrain := OpCall("create_unique_constraint", [Literal("u"), Name("table")], []);
    var nodes := [Do(create), Do(constrain)];
    assert constrain.args[..2] == constrain.args && create.args[..1] == create.args;
    assert SpotOf(nodes[0]) == SpotOf(nodes[1]) == Spot(Given(Name("table")), Absent);
    assert MadeAt(true, nodes, 0, SpotOf(nodes[1]));
  }

  /** A table that may or may not be made: where it was there already, a constraint on it passes. */
  lemma ConditionalTablePasses(sqlRisky: string -> bool, steady: bool) returns (run: Run)
    ensures var create := CallNode(OpCall("create_table", [Literal("t")], []), [], false);
            var constrain := OpCall("create_unique_constraint", [Literal("u"), Literal("t")], []);
            && Possible(steady, run) && Breaks(sqlRisky, run, [create, Do(constrain)], 1)
            && Risks(sqlRisky, constrain, Created([create, Do(constrain)]), Batches([create, Do(constrain)])) == []
  {
    var create := CallNode(OpCall("create_table", [Literal("t")], []), [], false);
    var constrain := OpCall("create_unique_constraint", [Literal("u"), Literal("t")], []);
    var nodes := [create, Do(constrain)];
    NoBatches(nodes, "op");
    assert SeenBy(nodes, 1) == CreatedName(nodes[0]) == Some(Literal("t"));
    assert NamedAt(nodes, 0, SeenBy(nodes, 1));
    SilentIs(sqlRisky, nodes, 1);
    assert !Checked(steady, nodes, 1);
    hide SeenBy;
    hide Checked;
    hide Breaks;
    hide Possible;
    run := MissedRun(sqlRisky, steady, nodes, 1);
  }

  // ---- an upgrade the lint does not read ----

  function DeclaredSafe(): Stmt { AssignStmt(["ROLLBACK_SAFE"], Bool(true)) }

  /** Defined twice: the lint judges the first and passes it, the migration runs the second and drops a table. */
  lemma TwoUpgradesPass(sqlRisky: string -> bool, run: Run)
    requires Agrees(run)
    ensures var drop := Do(OpCall("drop_table", [Literal("t")], []));
            var idle, busy := Def("upgrade", false, false, []), Def("upgrade", false, false, [drop]);
            var tree := [FunctionStmt(idle), FunctionStmt(busy), DeclaredSafe()];
            Linted(sqlRisky, tree) && Runs(tree) == Body(busy) && Breaks(sqlRisky, run, busy.nodes, 0) && !Covered(tree)
  {
    var drop := Do(OpCall("drop_table", [Literal("t")], []));
    var idle, busy := Def("upgrade", false, false, []), Def("upgrade", false, false, [drop]);
    var tree: Tree := [FunctionStmt(idle), FunctionStmt(busy), DeclaredSafe()];
    assert |"upgrade"| != |"ROLLBACK_SAFE"|;
    assert BoundAt(tree, "upgrade") == Some(1);
    assert JudgedAt(tree) == Some(0) && Upgrade(tree) == Some(idle);
    IdleBodies(Defs(tree), idle);
    assert Unflagged(sqlRisky, [idle]);
  }

  lemma IdleBodies(defs: map<string, Def>, upgrade: Def)
    requires upgrade.nodes == []
    ensures Bodies(defs, upgrade) == [upgrade]
  {
    var f := Front({upgrade.name}, []);
    assert Pushed(defs, upgrade.nodes, f) == f;
    assert Walked(defs, f) == [];
  }

  /** An upgrade that is assigned: the lint finds none to judge and passes the file, whatever it runs. */
  lemma AssignedUpgradePasses(sqlRisky: string -> bool, value: Expr)
    ensures var tree := [AssignStmt(["upgrade"], value), DeclaredSafe()];
            Linted(sqlRisky, tree) && Runs(tree) == Unseen && !Covered(tree)
  {
    var tree: Tree := [AssignStmt(["upgrade"], value), DeclaredSafe()];
    assert |"upgrade"| != |"ROLLBACK_SAFE"|;
    assert BoundAt(tree, "upgrade") == Some(0);
    assert JudgedAt(tree) == None;
  }
}
