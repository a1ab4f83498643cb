/**
What a migration does when it runs: what its names stand for, which table a call acts on, which column it adds, and
whether the release before can live with it.  Read from alembic's operations and from the list the lint's documentation
gives, not from what the lint looks at; it ends with what a reader of the file has to check, and a run in which the
worst happens.
*/
module RollbackRuns {
  import opened Wrappers
  import opened MigrationBodies
  import opened RollbackLint

  // ---- how an argument is passed ----

  /** Not at all, as an expression, or inside a `*rest` or `**rest` that does not show it. */
  datatype Passed = Absent | Given(e: Expr) | Spread

  predicate Unstarred(args: seq<Expr>) { forall a | a in args :: !a.Starred? }

  predicate Doubled(c: CallExpr) { exists k | k in c.keywords :: k.arg.None? }

  function ByKeyword(c: CallExpr, name: string): Passed {
    if Kw(c.keywords, name).Some? then Given(Kw(c.keywords, name).value) else if Doubled(c) then Spread else Absent
  }

  function ByPosition(c: CallExpr, index: nat, name: string): Passed {
    if index < |c.args| && Unstarred(c.args[..index + 1]) then Given(c.args[index])
    else if Kw(c.keywords, name).None? && !Unstarred(c.args) then Spread
    else ByKeyword(c, name)
  }

  /** The value an expression has in every run: a constant, or an f-string without a placeholder. */
  function LiteralOf(e: Expr): Option<Value> {
    match e
    case Constant(v) => Some(v)
    case Joined(parts) => if JoinedText(parts).Some? then Some(StrValue(JoinedText(parts).value)) else None
    case _ => None
  }

  /** The names SQLAlchemy goes by. */
  const LIBRARY := {"sa", "sqlalchemy"}

  function Root(e: Expr): string {
    match e
    case Name(id) => id
    case Attribute(_, value) => Root(value)
    case Call(call) => Root(call.func)
    case _ => ""
  }

  predicate FromLibrary(e: Expr) { Root(e) in LIBRARY }

  /** The expression is never None: another constant, a string, or something of SQLAlchemy's. */
  predicate Surely(e: Expr) { e.Joined? || FromLibrary(e) || (LiteralOf(e).Some? && LiteralOf(e) != Some(NoneValue)) }

  predicate Falsy(v: Value) { !Truthy(Some(v)) }

  // ---- calls and their tables ----

  predicate IsOperation(n: AstNode) { n.CallNode? && n.call.func.Attribute? }

  predicate OperationAt(nodes: seq<AstNode>, i: nat) { i < |nodes| && IsOperation(nodes[i]) }

  /** The innermost enclosing item that binds the name. */
  function Enclosing(within: seq<WithItem>, x: string): Option<WithItem> {
    if within == [] then None
    else if within[|within| - 1].alias == Some(x) then Some(within[|within| - 1])
    else Enclosing(within[..|within| - 1], x)
  }

  /** alembic's own module of operations. */
  predicate IsOp(e: Expr) { e == Name("op") || (e.Attribute? && e.attr == "op") }

  datatype Receiver = InBatch(batch: CallExpr) | OnOp | Elsewhere

  /** What a call is made on: the batch an enclosing `with` binds, alembic's operations, or something out of sight. */
  function ReceiverOf(n: AstNode): Receiver
    requires IsOperation(n)
  {
    var on := n.call.func.value;
    if on.Name? && Enclosing(n.within, on.id).Some? then
      var item := Enclosing(n.within, on.id).value;
      if IsBatch(item) then InBatch(item.context.call) else Elsewhere
    else if IsOp(on) then OnOp
    else Elsewhere
  }

  /** Where the table of a call is written. */
  datatype Spot = Spot(name: Passed, schema: Passed)

  function SpotOf(n: AstNode): Spot
    requires IsOperation(n)
  {
    var c := n.call;
    match ReceiverOf(n)
    case InBatch(batch) => Spot(ByPosition(batch, 0, "table_name"), ByPosition(batch, 1, "schema"))
    case OnOp =>
      if Op(c) == "create_table" || Op(c) == "add_column" then
        Spot(ByPosition(c, 0, "table_name"), ByKeyword(c, "schema"))
      else if Op(c) == "create_foreign_key" then
        Spot(ByPosition(c, 1, "source_table"), ByKeyword(c, "source_schema"))
      else
        Spot(ByPosition(c, 1, "table_name"), ByKeyword(c, "schema"))
    case Elsewhere => Spot(Spread, Spread)
  }

  /** Where the column of an add_column is written: after the table's name, or first in a batch. */
  function ColumnSpot(n: AstNode): Passed
    requires IsOperation(n)
  {
    ByPosition(n.call, if ReceiverOf(n).OnOp? || |n.call.args| > 1 then 1 else 0, "column")
  }

  // ---- one run ----

  datatype Param =
    | TableName | SchemaName | IfNotExists | Nullable | PrimaryKey | ServerDefault | Unique | NewColumnName | NewType

  /** What an item of a column is: a type or a name, a constraint, or something that gives the column its values. */
  datatype Kind = Harmless | Constraining | Defaulting

  datatype Shape = Shape(notNull: bool, defaulted: bool, constrained: bool)

  /**
  One run: the schema a table without one is in, and what it does not take from the file alone - whether the call at a
  place is made, the value of an argument of it, what an item of its column is, and what column it adds.
  */
  datatype Run = Run(
    home: Value,
    made: (nat, bool) -> bool,
    value: (nat, Param, Passed) -> Option<Value>,
    kind: (nat, Expr) -> Kind,
    shape: nat -> Shape)

  /** What the file itself says of an item; a type may carry a CHECK when told to. */
  function KindOf(e: Expr): Option<Kind> {
    if LiteralOf(e).Some? || e.Joined? then Some(Harmless)
    else if !FromLibrary(e) then None
    else if !e.Call? then Some(Harmless)
    else if e.call.func.Attribute? && e.call.func.attr in {"ForeignKey", "CheckConstraint"} then Some(Constraining)
    else if e.call.func.Attribute? && e.call.func.attr in {"Identity", "Computed"} then Some(Defaulting)
    else if NeverTrue(ByKeyword(e.call, "create_constraint")) then Some(Harmless)
    else None
  }

  predicate Fits(e: Expr, v: Option<Value>) {
    v.Some? && (LiteralOf(e).Some? ==> v == LiteralOf(e)) && (Surely(e) ==> v != Some(NoneValue))
  }

  /** The run agrees with the file. */
  ghost predicate Agrees(run: Run) {
    && (forall i :: run.made(i, true))
    && (forall i, p :: run.value(i, p, Absent) == None)
    && (forall i, p, e :: Fits(e, run.value(i, p, Given(e))))
    && (forall i, e | KindOf(e).Some? :: run.kind(i, e) == KindOf(e).value)
  }

  predicate NamesTable(p: Param) { p.TableName? || p.SchemaName? }

  /** A variable names one table, or one schema, wherever it does. */
  ghost predicate Steady(run: Run) {
    forall i, j, p, q, x | NamesTable(p) && NamesTable(q) ::
      run.value(i, p, Given(Name(x))) == run.value(j, q, Given(Name(x)))
  }

  ghost predicate Possible(steady: bool, run: Run) { Agrees(run) && (steady ==> Steady(run)) }

  datatype Table = Table(schema: Value, name: Option<Value>)

  function TableAt(run: Run, nodes: seq<AstNode>, i: nat): Table
    requires OperationAt(nodes, i)
  {
    var spot := SpotOf(nodes[i]);
    var schema := run.value(i, SchemaName, spot.schema);
    Table(if Truthy(schema) then schema.value else run.home, run.value(i, TableName, spot.name))
  }

  /** The call at j makes the table, and did not merely find it there. */
  predicate Makes(run: Run, nodes: seq<AstNode>, j: nat, table: Table) {
    && j < |nodes| && CreatesTable(nodes[j]) && run.made(j, nodes[j].certain)
    && !Truthy(run.value(j, IfNotExists, ByKeyword(nodes[j].call, "if_not_exists")))
    && TableAt(run, nodes, j) == table
  }

  /** The table a call acts on is older than the upgrade. */
  ghost predicate OnOldTable(run: Run, nodes: seq<AstNode>, i: nat)
    requires OperationAt(nodes, i)
  {
    forall j | 0 <= j < |nodes| :: !Makes(run, nodes, j, TableAt(run, nodes, i))
  }

  // ---- the documented operations ----

  predicate IsColumn(e: Expr) {
    && e.Call?
    && (e.call.func == Name("Column") || (FromLibrary(e) && e.call.func.Attribute? && e.call.func.attr == "Column"))
  }

  function Items(c: CallExpr): seq<Expr> {
    c.args + if Kw(c.keywords, "type_").Some? then [Kw(c.keywords, "type_").value] else []
  }

  predicate NotNull(run: Run, i: nat, c: CallExpr) {
    match run.value(i, Nullable, ByKeyword(c, "nullable"))
    case Some(v) => Falsy(v)
    case None => Truthy(run.value(i, PrimaryKey, ByKeyword(c, "primary_key")))
  }

  predicate Defaulted(run: Run, i: nat, c: CallExpr) {
    || Changed(run.value(i, ServerDefault, ByKeyword(c, "server_default")))
    || exists e | e in Items(c) :: run.kind(i, e).Defaulting?
  }

  predicate Constrained(run: Run, i: nat, c: CallExpr) {
    || Truthy(run.value(i, Unique, ByKeyword(c, "unique")))
    || exists e | e in Items(c) :: run.kind(i, e).Constraining?
  }

  predicate Changed(v: Option<Value>) { v.Some? && v.value != NoneValue }

  /** The column the call at i adds, if any. */
  function Added(run: Run, n: AstNode, i: nat): Option<Shape>
    requires IsOperation(n)
  {
    match ColumnSpot(n)
    case Absent => None
    case Spread => Some(run.shape(i))
    case Given(e) =>
      if !IsColumn(e) then Some(run.shape(i))
      else Some(Shape(NotNull(run, i, e.call), Defaulted(run, i, e.call), Constrained(run, i, e.call)))
  }

  /** A NOT NULL column without a server default, or one that brings a constraint to an old table. */
  ghost predicate AddsHard(run: Run, nodes: seq<AstNode>, i: nat)
    requires OperationAt(nodes, i)
  {
    var column := Added(run, nodes[i], i);
    && column.Some?
    && ((column.value.notNull && !column.value.defaulted) || (column.value.constrained && OnOldTable(run, nodes, i)))
  }

  /** A rename, a new type, NOT NULL, or a dropped server default. */
  predicate Alters(run: Run, i: nat, c: CallExpr) {
    var nullable := run.value(i, Nullable, ByKeyword(c, "nullable"));
    || Changed(run.value(i, NewColumnName, ByKeyword(c, "new_column_name")))
    || Changed(run.value(i, NewType, ByKeyword(c, "type_")))
    || (Changed(nullable) && !Truthy(nullable))
    || run.value(i, ServerDefault, ByKeyword(c, "server_default")) == Some(NoneValue)
  }

  predicate IsString(e: Expr, sql: string) { LiteralOf(e) == Some(StrValue(sql)) }

  predicate IsText(e: Expr, sql: string) {
    && e.Call? && |e.call.args| == 1 && e.call.keywords == []
    && (e.call.func == Name("text") || (e.call.func.Attribute? && e.call.func.attr == "text"))
    && IsString(e.call.args[0], sql)
  }

  /** The statement is this one literal: bare, in text(), or in text() with parameters bound. */
  predicate Spells(e: Expr, sql: string) {
    || IsString(e, sql) || IsText(e, sql)
    || (e.Call? && e.call.func.Attribute? && e.call.func.attr == "bindparams" && IsText(e.call.func.value, sql))
  }

  function Statement(c: CallExpr): Passed {
    var other := Kw(c.keywords, "sqltext").None? && Kw(c.keywords, "statement").Some?;
    ByPosition(c, 0, if other then "statement" else "sqltext")
  }

  ghost predicate MildSql(sqlRisky: string -> bool, p: Passed) {
    p.Given? && exists sql :: Spells(p.e, sql) && !sqlRisky(sql)
  }

  /** The documented operations by the name alembic, or a connection, knows them under. */
  datatype Effect = Drops | AltersColumn | AddsColumn | PutsConstraint | PutsIndex | RunsSql | NoEffect

  function EffectOf(operation: string): Effect {
    if operation in {"drop_table", "drop_column", "rename_table"} then Drops
    else if operation == "alter_column" then AltersColumn
    else if operation == "add_column" then AddsColumn
    else if operation in {"create_unique_constraint", "create_check_constraint", "create_foreign_key"}
    then PutsConstraint
    else if operation == "create_index" then PutsIndex
    else if operation in {"execute", "exec_driver_sql"} then RunsSql
    else NoEffect
  }

  /** In this run the call is made and does what the documentation lists. */
  ghost predicate Breaks(sqlRisky: string -> bool, run: Run, nodes: seq<AstNode>, i: nat)
    requires OperationAt(nodes, i)
  {
    run.made(i, nodes[i].certain) && Does(sqlRisky, run, nodes, i)
  }

  ghost predicate Does(sqlRisky: string -> bool, run: Run, nodes: seq<AstNode>, i: nat)
    requires OperationAt(nodes, i)
  {
    var c := nodes[i].call;
    match EffectOf(Op(c))
    case Drops => true
    case AltersColumn => Alters(run, i, c)
    case AddsColumn => AddsHard(run, nodes, i)
    case PutsConstraint => OnOldTable(run, nodes, i)
    case PutsIndex => Truthy(run.value(i, Unique, ByKeyword(c, "unique"))) && OnOldTable(run, nodes, i)
    case RunsSql => !MildSql(sqlRisky, Statement(c))
    case NoEffect => false
  }

  ghost predicate AlwaysHarmless(sqlRisky: string -> bool, steady: bool, nodes: seq<AstNode>, i: nat)
    requires OperationAt(nodes, i)
  {
    forall run | Possible(steady, run) :: !Breaks(sqlRisky, run, nodes, i)
  }

  // ---- what can be read off the file ----

  predicate NeverTrue(p: Passed) { p.Absent? || (p.Given? && LiteralOf(p.e).Some? && Falsy(LiteralOf(p.e).value)) }

  predicate NeverNone(p: Passed) { p.Absent? || (p.Given? && Surely(p.e)) }

  /** Not passed, or a literal None or true value. */
  predicate NeverFalse(p: Passed) {
    p.Absent? || (p.Given? && LiteralOf(p.e).Some? && (LiteralOf(p.e).value.NoneValue? || !Falsy(LiteralOf(p.e).value)))
  }

  datatype Known = Fixed(v: Option<Value>) | Variable(x: string) | Unknown

  function NameKnown(steady: bool, p: Passed): Known {
    match p
    case Absent => Fixed(None)
    case Spread => Unknown
    case Given(e) =>
      if LiteralOf(e).Some? then Fixed(LiteralOf(e)) else if steady && e.Name? then Variable(e.id) else Unknown
  }

  function SchemaKnown(steady: bool, p: Passed): Known {
    var known := NameKnown(steady, p);
    if known.Fixed? && !Truthy(known.v) then Fixed(None) else known
  }

  predicate SameSpot(steady: bool, a: Spot, b: Spot) {
    && NameKnown(steady, a.name) == NameKnown(steady, b.name) != Unknown
    && SchemaKnown(steady, a.schema) == SchemaKnown(steady, b.schema) != Unknown
  }

  predicate MadeAt(steady: bool, nodes: seq<AstNode>, j: nat, spot: Spot) {
    && j < |nodes| && CreatesTable(nodes[j]) && nodes[j].certain
    && NeverTrue(ByKeyword(nodes[j].call, "if_not_exists"))
    && SameSpot(steady, SpotOf(nodes[j]), spot)
  }

  /** Some create_table that is always made, and not only if it is missing, has the same name and the same schema. */
  predicate SurelyNew(steady: bool, nodes: seq<AstNode>, i: nat)
    requires OperationAt(nodes, i)
  {
    exists j | 0 <= j < |nodes| :: MadeAt(steady, nodes, j, SpotOf(nodes[i]))
  }

  predicate NeverNotNull(c: CallExpr) {
    match ByKeyword(c, "nullable")
    case Absent => NeverTrue(ByKeyword(c, "primary_key"))
    case Given(e) => LiteralOf(e).Some? && !Falsy(LiteralOf(e).value)
    case Spread => false
  }

  predicate SurelyDefaulted(c: CallExpr) {
    || (ByKeyword(c, "server_default").Given? && Surely(ByKeyword(c, "server_default").e))
    || exists e | e in Items(c) :: KindOf(e) == Some(Defaulting)
  }

  predicate NeverConstrained(c: CallExpr) {
    && NeverTrue(ByKeyword(c, "unique"))
    && forall e | e in Items(c) :: KindOf(e).Some? && KindOf(e) != Some(Constraining)
  }

  /**
  The column is written out in the call; it may be null or has a default that is there, and its table is new or it
  brings no constraint along.
  */
  predicate ColumnChecked(steady: bool, nodes: seq<AstNode>, i: nat)
    requires OperationAt(nodes, i)
  {
    match ColumnSpot(nodes[i])
    case Absent => true
    case Spread => false
    case Given(e) =>
      && IsColumn(e) && (NeverNotNull(e.call) || SurelyDefaulted(e.call))
      && (NeverConstrained(e.call) || SurelyNew(steady, nodes, i))
  }

  predicate AlterChecked(c: CallExpr) {
    !Doubled(c) && NeverFalse(ByKeyword(c, "nullable")) && NeverNone(ByKeyword(c, "server_default"))
  }

  /** What a reader still has to check of a call the lint has passed. */
  predicate Checked(steady: bool, nodes: seq<AstNode>, i: nat)
    requires OperationAt(nodes, i)
  {
    var c := nodes[i].call;
    match EffectOf(Op(c))
    case AltersColumn => AlterChecked(c)
    case AddsColumn => ColumnChecked(steady, nodes, i)
    case PutsConstraint => SurelyNew(steady, nodes, i)
    case PutsIndex => NeverTrue(ByKeyword(c, "unique")) || SurelyNew(steady, nodes, i)
    case _ => true
  }

  // ---- in every run ----

  lemma ArgumentAgrees(run: Run, i: nat, p: Param, q: Passed)
    requires Agrees(run)
    ensures q.Absent? ==> run.value(i, p, q) == None
    ensures q.Given? ==> Fits(q.e, run.value(i, p, q))
  {}

  lemma KnownAgrees(steady: bool, run: Run, i: nat, j: nat, p: Param, a: Passed, b: Passed)
    requires Possible(steady, run) && NamesTable(p)
    requires NameKnown(steady, a) == NameKnown(steady, b) != Unknown
    ensures run.value(i, p, a) == run.value(j, p, b)
  {
    ArgumentAgrees(run, i, p, a);
    ArgumentAgrees(run, j, p, b);
    hide Agrees;
    if a.Given? && LiteralOf(a.e).None? {
      assert a == b == Given(Name(a.e.id));
    }
  }

  lemma SchemaAgrees(steady: bool, run: Run, i: nat, j: nat, a: Passed, b: Passed)
    requires Possible(steady, run) && SchemaKnown(steady, a) == SchemaKnown(steady, b) != Unknown
    ensures var v, w := run.value(i, SchemaName, a), run.value(j, SchemaName, b);
            (Truthy(v) <==> Truthy(w)) && (Truthy(v) ==> v == w)
  {
    if NameKnown(steady, a) == NameKnown(steady, b) {
      KnownAgrees(steady, run, i, j, SchemaName, a, b);
    } else {
      ArgumentAgrees(run, i, SchemaName, a);
      ArgumentAgrees(run, j, SchemaName, b);
    }
  }

  lemma NewInEveryRun(steady: bool, run: Run, nodes: seq<AstNode>, i: nat)
    requires Possible(steady, run) && OperationAt(nodes, i) && SurelyNew(steady, nodes, i)
    ensures !OnOldTable(run, nodes, i)
  {
    var spot := SpotOf(nodes[i]);
    var j :| 0 <= j < |nodes| && MadeAt(steady, nodes, j, spot);
    var made := SpotOf(nodes[j]);
    KnownAgrees(steady, run, j, i, TableName, made.name, spot.name);
    SchemaAgrees(steady, run, j, i, made.schema, spot.schema);
    ArgumentAgrees(run, j, IfNotExists, ByKeyword(nodes[j].call, "if_not_exists"));
    hide Agrees;
    hide Steady;
    hide SpotOf;
    hide ByKeyword;
    assert Makes(run, nodes, j, TableAt(run, nodes, i));
  }

  lemma AlterInEveryRun(run: Run, i: nat, c: CallExpr)
    requires Agrees(run) && AlterChecked(c) && Kw(c.keywords, "new_column_name").None? && Kw(c.keywords, "type_").None?
    ensures !Alters(run, i, c)
  {
    ArgumentAgrees(run, i, NewColumnName, ByKeyword(c, "new_column_name"));
    ArgumentAgrees(run, i, NewType, ByKeyword(c, "type_"));
    ArgumentAgrees(run, i, Nullable, ByKeyword(c, "nullable"));
    ArgumentAgrees(run, i, ServerDefault, ByKeyword(c, "server_default"));
    hide Agrees;
    hide FromLibrary;
  }

  lemma ColumnInEveryRun(run: Run, i: nat, c: CallExpr)
    requires Agrees(run)
    ensures NeverNotNull(c) ==> !NotNull(run, i, c)
    ensures SurelyDefaulted(c) ==> Defaulted(run, i, c)
    ensures NeverConstrained(c) ==> !Constrained(run, i, c)
  {
    ArgumentAgrees(run, i, Nullable, ByKeyword(c, "nullable"));
    ArgumentAgrees(run, i, PrimaryKey, ByKeyword(c, "primary_key"));
    ArgumentAgrees(run, i, ServerDefault, ByKeyword(c, "server_default"));
    ArgumentAgrees(run, i, Unique, ByKeyword(c, "unique"));
    forall e | e in Items(c) && KindOf(e).Some?
      ensures run.kind(i, e) == KindOf(e).value
    {}
    hide Agrees;
    hide KindOf;
    hide FromLibrary;
    hide ByKeyword;
    hide Items;
  }

  lemma AddInEveryRun(steady: bool, run: Run, nodes: seq<AstNode>, i: nat)
    requires Possible(steady, run) && OperationAt(nodes, i) && ColumnChecked(steady, nodes, i)
    ensures !AddsHard(run, nodes, i)
  {
    hide Agrees;
    hide Steady;
    hide OnOldTable;
    hide SurelyNew;
    hide ColumnSpot;
    hide NeverNotNull;
    hide SurelyDefaulted;
    hide NeverConstrained;
    hide NotNull;
    hide Defaulted;
    hide Constrained;
    var column := ColumnSpot(nodes[i]);
    if column.Given? {
      ColumnInEveryRun(run, i, column.e.call);
      if SurelyNew(steady, nodes, i) {
        NewInEveryRun(steady, run, nodes, i);
      }
    }
  }

  // ---- in the worst run ----

  function Text(n: nat): Value { StrValue(seq(n, _ => 'x')) }

  lemma TextsApart(m: nat, n: nat)
    ensures Text(m) == Text(n) <==> m == n
    ensures n > 0 ==> Truthy(Some(Text(n)))
  {
    assert |Text(m).s| == m && |Text(n).s| == n;
  }

  /**
  Names that cannot be read, at the worst: the table at i has one name and one schema, every other table another; a
  variable that must be steady keeps the value it has at i.
  */
  function WorstName(steady: bool, mine: Spot, i: nat, n: nat, j: nat, p: Param, q: Passed): Value {
    if steady && q.Given? && q.e.Name? then
      if q == mine.name then Text(n) else if q == mine.schema then Text(n + 1) else Text(n + 2)
    else if j == i then if p.TableName? then Text(n) else Text(n + 1)
    else Text(n + 2)
  }

  function WorstOf(steady: bool, mine: Spot, i: nat, n: nat, j: nat, p: Param, q: Passed): Value {
    match p
    case TableName => WorstName(steady, mine, i, n, j, p, q)
    case SchemaName => WorstName(steady, mine, i, n, j, p, q)
    case ServerDefault => if q.Given? && Surely(q.e) then BoolValue(true) else NoneValue
    case Nullable => BoolValue(false)
    case _ => BoolValue(true)
  }

  function WorstValue(steady: bool, mine: Spot, i: nat, n: nat, j: nat, p: Param, q: Passed): Option<Value> {
    if q.Absent? then None
    else if q.Given? && LiteralOf(q.e).Some? then LiteralOf(q.e)
    else Some(WorstOf(steady, mine, i, n, j, p, q))
  }

  function WorstKind(e: Expr): Kind { if KindOf(e).Some? then KindOf(e).value else Constraining }

  function Worst(steady: bool, mine: Spot, i: nat, n: nat): Run {
    Run(Text(n + 3), (j: nat, certain: bool) => certain || j == i,
        (j: nat, p: Param, q: Passed) => WorstValue(steady, mine, i, n, j, p, q),
        (j: nat, e: Expr) => WorstKind(e), (j: nat) => Shape(true, false, true))
  }

  lemma WorstAt(steady: bool, mine: Spot, i: nat, n: nat)
    ensures var run := Worst(steady, mine, i, n);
            && run.home == Text(n + 3)
            && (forall j, certain :: run.made(j, certain) <==> certain || j == i)
            && (forall j, p, q :: run.value(j, p, q) == WorstValue(steady, mine, i, n, j, p, q))
            && (forall j, e :: run.kind(j, e) == WorstKind(e))
            && (forall j :: run.shape(j) == Shape(true, false, true))
  {}

  lemma WorstIsPossible(steady: bool, mine: Spot, i: nat, n: nat)
    requires n > 0
    ensures Possible(steady, Worst(steady, mine, i, n))
  {
    var run := Worst(steady, mine, i, n);
    WorstAt(steady, mine, i, n);
    hide Worst;
    hide KindOf;
    forall j, p, e
      ensures Fits(e, WorstValue(steady, mine, i, n, j, p, Given(e)))
    {
      WorstFits(steady, mine, i, n, j, p, e);
    }
    if steady {
      forall x, j, p | NamesTable(p)
        ensures var q := Given(Name(x));
                WorstValue(true, mine, i, n, j, p, q) == Some(WorstName(true, mine, i, n, 0, TableName, q))
      {}
    }
    hide WorstValue;
    hide Fits;
  }

  lemma WorstFits(steady: bool, mine: Spot, i: nat, n: nat, j: nat, p: Param, e: Expr)
    ensures Fits(e, WorstValue(steady, mine, i, n, j, p, Given(e)))
  {
    hide JoinedText;
  }

  /** Every literal among the names and schemas of the tables. */
  function SpotLiterals(spot: Spot): set<Value> {
    (set v | v in [PassedLiteral(spot.name), PassedLiteral(spot.schema)] && v.Some? :: v.value)
  }

  function PassedLiteral(p: Passed): Option<Value> { if p.Given? then LiteralOf(p.e) else None }

  function TableLiterals(nodes: seq<AstNode>): set<Value> {
    set j, v | 0 <= j < |nodes| && IsOperation(nodes[j]) && v in SpotLiterals(SpotOf(nodes[j])) :: v
  }

  lemma {:induction false} LongerThan(s: set<Value>) returns (n: nat)
    ensures n > 0 && forall text | StrValue(text) in s :: |text| < n
    decreases |s|
  {
    n := 1;
    if s != {} {
      var v :| v in s;
      var m := LongerThan(s - {v});
      n := if v.StrValue? && |v.s| >= m then |v.s| + 1 else m;
      forall text | StrValue(text) in s
        ensures |text| < n
      {
        assert StrValue(text) == v || StrValue(text) in s - {v};
      }
    }
  }

  ghost predicate Short(spot: Spot, n: nat) {
    forall text | StrValue(text) in SpotLiterals(spot) :: |text| < n
  }

  lemma ShortIs(spot: Spot, n: nat, text: string)
    requires Short(spot, n)
    ensures PassedLiteral(spot.name) == Some(StrValue(text)) || PassedLiteral(spot.schema) == Some(StrValue(text))
            ==> |text| < n
  {
    if PassedLiteral(spot.name) == Some(StrValue(text)) || PassedLiteral(spot.schema) == Some(StrValue(text)) {
      assert Some(StrValue(text)) in [PassedLiteral(spot.name), PassedLiteral(spot.schema)];
      assert StrValue(text) in SpotLiterals(spot);
    }
  }

  /** In the worst run two places have the same table only where the file says so. */
  lemma WorstNames(steady: bool, mine: Spot, i: nat, n: nat, j: nat, other: Spot)
    requires j != i && Short(mine, n) && Short(other, n)
    requires WorstValue(steady, mine, i, n, i, TableName, mine.name)
             == WorstValue(steady, mine, i, n, j, TableName, other.name)
    ensures NameKnown(steady, mine.name) == NameKnown(steady, other.name) != Unknown
  {
    ShortIs(mine, n, Text(n).s);
    ShortIs(other, n, Text(n).s);
    TextsApart(n, n + 1);
    TextsApart(n, n + 2);
    hide LiteralOf;
    assert |Text(n).s| == n;
    hide Text;
  }

  function WorstSchema(steady: bool, mine: Spot, i: nat, n: nat, j: nat, p: Passed): Value {
    var v := WorstValue(steady, mine, i, n, j, SchemaName, p);
    if Truthy(v) then v.value else Text(n + 3)
  }

  /** None of the four names made up is one of the file's. */
  lemma MadeUp(spot: Spot, n: nat, k: nat)
    requires n > 0 && Short(spot, n) && n <= k
    ensures Truthy(Some(Text(k))) && PassedLiteral(spot.schema) != Some(Text(k))
  {
    ShortIs(spot, n, Text(k).s);
    TextsApart(k, k);
  }

  /** What the schema of a place is in the worst run: the file's word for it, or a name made up. */
  lemma WorstSchemaIs(steady: bool, mine: Spot, i: nat, n: nat, j: nat, p: Passed)
    requires n > 0
    ensures var known, v := SchemaKnown(steady, p), WorstSchema(steady, mine, i, n, j, p);
            match known
            case Fixed(None) => v == Text(n + 3)
            case Fixed(Some(w)) => v == w && PassedLiteral(p) == Some(w)
            case Unknown => v == if j == i then Text(n + 1) else Text(n + 2)
            case Variable(x) =>
              v == if mine.name == Given(Name(x)) then Text(n)
                   else if mine.schema == Given(Name(x)) then Text(n + 1)
                   else Text(n + 2)
  {
    TextsApart(n, n);
    TextsApart(n + 1, n + 1);
    TextsApart(n + 2, n + 2);
    hide LiteralOf;
    hide Text;
  }

  lemma WorstSchemas(steady: bool, mine: Spot, i: nat, n: nat, j: nat, other: Spot)
    requires j != i && n > 0 && Short(mine, n) && Short(other, n)
    requires WorstSchema(steady, mine, i, n, i, mine.schema) == WorstSchema(steady, mine, i, n, j, other.schema)
    ensures SchemaKnown(steady, mine.schema) == SchemaKnown(steady, other.schema) != Unknown
  {
    WorstSchemaIs(steady, mine, i, n, i, mine.schema);
    WorstSchemaIs(steady, mine, i, n, j, other.schema);
    VariableIs(steady, mine.schema);
    forall k | n <= k <= n + 3
      ensures PassedLiteral(mine.schema) != Some(Text(k)) && PassedLiteral(other.schema) != Some(Text(k))
    {
      MadeUp(mine, n, k);
      MadeUp(other, n, k);
    }
    TextsApart(n, n + 1);
    TextsApart(n, n + 2);
    TextsApart(n, n + 3);
    TextsApart(n + 1, n + 2);
    TextsApart(n + 1, n + 3);
    TextsApart(n + 2, n + 3);
    hide *;
  }

  lemma VariableIs(steady: bool, p: Passed)
    ensures forall x :: SchemaKnown(steady, p) == Variable(x) ==> p == Given(Name(x))
    ensures forall x :: p == Given(Name(x)) && steady ==> SchemaKnown(steady, p) == Variable(x)
  {}

  lemma WorstTable(steady: bool, mine: Spot, i: nat, n: nat, nodes: seq<AstNode>, j: nat)
    requires OperationAt(nodes, j)
    ensures var spot := SpotOf(nodes[j]);
            TableAt(Worst(steady, mine, i, n), nodes, j)
            == Table(WorstSchema(steady, mine, i, n, j, spot.schema),
                     WorstValue(steady, mine, i, n, j, TableName, spot.name))
  {
    WorstAt(steady, mine, i, n);
    hide Worst;
    hide SpotOf;
    hide WorstValue;
  }

  /** All the tables' literals are shorter than n. */
  ghost predicate AllShort(nodes: seq<AstNode>, n: nat) {
    n > 0 && forall j | 0 <= j < |nodes| && IsOperation(nodes[j]) :: Short(SpotOf(nodes[j]), n)
  }

  lemma SomeLength(nodes: seq<AstNode>) returns (n: nat)
    ensures AllShort(nodes, n)
  {
    n := LongerThan(TableLiterals(nodes));
    hide SpotOf;
    hide SpotLiterals;
    forall j, text | 0 <= j < |nodes| && IsOperation(nodes[j]) && StrValue(text) in SpotLiterals(SpotOf(nodes[j]))
      ensures |text| < n
    {
      assert StrValue(text) in TableLiterals(nodes);
    }
  }

  lemma WorstIfNotExists(steady: bool, mine: Spot, i: nat, n: nat, j: nat, q: Passed)
    ensures !Truthy(Worst(steady, mine, i, n).value(j, IfNotExists, q)) <==> NeverTrue(q)
  {
    WorstAt(steady, mine, i, n);
    hide Worst;
    hide LiteralOf;
  }

  lemma OldInWorst(steady: bool, nodes: seq<AstNode>, i: nat, n: nat)
    requires OperationAt(nodes, i) && !CreatesTable(nodes[i]) && AllShort(nodes, n) && !SurelyNew(steady, nodes, i)
    ensures OnOldTable(Worst(steady, SpotOf(nodes[i]), i, n), nodes, i)
  {
    var mine := SpotOf(nodes[i]);
    var run := Worst(steady, mine, i, n);
    WorstAt(steady, mine, i, n);
    hide Worst;
    WorstTable(steady, mine, i, n, nodes, i);
    forall j | 0 <= j < |nodes| && CreatesTable(nodes[j])
      ensures !Makes(run, nodes, j, TableAt(run, nodes, i))
    {
      var other := SpotOf(nodes[j]);
      assert !MadeAt(steady, nodes, j, mine);
      WorstTable(steady, mine, i, n, nodes, j);
      WorstIfNotExists(steady, mine, i, n, j, ByKeyword(nodes[j].call, "if_not_exists"));
      hide SpotOf;
      hide WorstSchema;
      hide WorstValue;
      hide SchemaKnown;
      hide NameKnown;
      hide TableAt;
      hide Short;
      if TableAt(run, nodes, j) == TableAt(run, nodes, i) {
        WorstNames(steady, mine, i, n, j, other);
        WorstSchemas(steady, mine, i, n, j, other);
      }
    }
  }

  lemma AlterInWorst(steady: bool, mine: Spot, i: nat, n: nat, c: CallExpr)
    requires !AlterChecked(c) && Kw(c.keywords, "new_column_name").None?
    ensures Alters(Worst(steady, mine, i, n), i, c)
  {
    WorstAt(steady, mine, i, n);
    hide Worst;
    hide JoinedText;
    hide FromLibrary;
  }

  lemma ColumnInWorst(steady: bool, mine: Spot, i: nat, n: nat, c: CallExpr)
    ensures var run := Worst(steady, mine, i, n);
            && (!NeverNotNull(c) ==> NotNull(run, i, c))
            && (!SurelyDefaulted(c) ==> !Defaulted(run, i, c))
            && (!NeverConstrained(c) ==> Constrained(run, i, c))
  {
    WorstAt(steady, mine, i, n);
    hide Worst;
    hide JoinedText;
    hide FromLibrary;
    hide KindOf;
    hide Items;
    hide ByKeyword;
  }

  lemma AddInWorst(steady: bool, nodes: seq<AstNode>, i: nat, n: nat)
    requires OperationAt(nodes, i) && !CreatesTable(nodes[i]) && AllShort(nodes, n)
    requires !ColumnChecked(steady, nodes, i)
    ensures AddsHard(Worst(steady, SpotOf(nodes[i]), i, n), nodes, i)
  {
    var mine := SpotOf(nodes[i]);
    WorstAt(steady, mine, i, n);
    if !SurelyNew(steady, nodes, i) {
      OldInWorst(steady, nodes, i, n);
    }
    var column := ColumnSpot(nodes[i]);
    if column.Given? && IsColumn(column.e) {
      ColumnInWorst(steady, mine, i, n, column.e.call);
    }
    AddHard(steady, Worst(steady, mine, i, n), nodes, i);
  }

  lemma AddHard(steady: bool, run: Run, nodes: seq<AstNode>, i: nat)
    requires OperationAt(nodes, i) && !ColumnChecked(steady, nodes, i)
    requires run.shape(i) == Shape(true, false, true) && (!SurelyNew(steady, nodes, i) ==> OnOldTable(run, nodes, i))
    requires ColumnSpot(nodes[i]).Given? && IsColumn(ColumnSpot(nodes[i]).e) ==>
               var c := ColumnSpot(nodes[i]).e.call;
               && (!NeverNotNull(c) ==> NotNull(run, i, c)) && (!SurelyDefaulted(c) ==> !Defaulted(run, i, c))
               && (!NeverConstrained(c) ==> Constrained(run, i, c))
    ensures AddsHard(run, nodes, i)
  {
    hide OnOldTable;
    hide SurelyNew;
    hide ColumnSpot;
    hide IsColumn;
    hide NeverNotNull;
    hide SurelyDefaulted;
    hide NeverConstrained;
    hide NotNull;
    hide Defaulted;
    hide Constrained;
  }

  // ---- harmless exactly when checked ----

  /** A call passed by a lint that stops drops, renames, retyping and the SQL it reads. */
  predicate Passing(sqlRisky: string -> bool, c: CallExpr)
    requires c.func.Attribute?
  {
    match EffectOf(Op(c))
    case Drops => false
    case AltersColumn => Kw(c.keywords, "new_column_name").None? && Kw(c.keywords, "type_").None?
    case RunsSql => SingleLiteral(c).Some? && !sqlRisky(SingleLiteral(c).value)
    case _ => true
  }

  lemma LiteralSpells(c: CallExpr)
    requires SingleLiteral(c).Some?
    ensures Statement(c).Given? && Spells(Statement(c).e, SingleLiteral(c).value)
  {
    hide JoinedText;
    if c.args != [] {
      assert c.args[..0 + 1] == [c.args[0]];
    }
  }

  lemma HarmlessIfChecked(sqlRisky: string -> bool, steady: bool, run: Run, nodes: seq<AstNode>, i: nat)
    requires OperationAt(nodes, i) && Passing(sqlRisky, nodes[i].call) && Checked(steady, nodes, i)
             && Possible(steady, run)
    ensures !Breaks(sqlRisky, run, nodes, i)
  {
    var c := nodes[i].call;
    ArgumentAgrees(run, i, Unique, ByKeyword(c, "unique"));
    hide Agrees;
    hide Steady;
    hide Alters;
    hide AddsHard;
    hide OnOldTable;
    hide SurelyNew;
    hide ByKeyword;
    hide LiteralOf;
    hide MildSql;
    hide AlterChecked;
    hide ColumnChecked;
    hide EffectOf;
    if SurelyNew(steady, nodes, i) {
      NewInEveryRun(steady, run, nodes, i);
    }
    match EffectOf(Op(c))
    case AltersColumn => AlterInEveryRun(run, i, c);
    case AddsColumn => AddInEveryRun(steady, run, nodes, i);
    case RunsSql => MildIfPassing(sqlRisky, c);
    case _ =>
  }

  lemma MildIfPassing(sqlRisky: string -> bool, c: CallExpr)
    requires SingleLiteral(c).Some? && !sqlRisky(SingleLiteral(c).value)
    ensures MildSql(sqlRisky, Statement(c))
  {
    LiteralSpells(c);
  }

  lemma BreaksUnlessChecked(sqlRisky: string -> bool, steady: bool, nodes: seq<AstNode>, i: nat, n: nat)
    requires OperationAt(nodes, i) && Passing(sqlRisky, nodes[i].call) && !Checked(steady, nodes, i)
             && AllShort(nodes, n)
    ensures Breaks(sqlRisky, Worst(steady, SpotOf(nodes[i]), i, n), nodes, i)
  {
    var c, mine := nodes[i].call, SpotOf(nodes[i]);
    var run := Worst(steady, mine, i, n);
    NotCreating(nodes[i]);
    UncheckedDoes(sqlRisky, steady, run, nodes, i);
    MadeInWorst(steady, mine, i, n, nodes[i].certain);
    assert run.made(i, nodes[i].certain) && Does(sqlRisky, run, nodes, i) ==> Breaks(sqlRisky, run, nodes, i);
    hide *;
    match EffectOf(Op(c))
    case AltersColumn => AlterInWorst(steady, mine, i, n, c);
    case AddsColumn => AddInWorst(steady, nodes, i, n);
    case PutsConstraint => OldInWorst(steady, nodes, i, n);
    case PutsIndex =>
      OldInWorst(steady, nodes, i, n);
      UniqueInWorst(steady, mine, i, n, ByKeyword(c, "unique"));
    case _ =>
  }

  lemma MadeInWorst(steady: bool, mine: Spot, i: nat, n: nat, certain: bool)
    ensures Worst(steady, mine, i, n).made(i, certain)
  {}

  /** What it takes for a call that is not checked to do something the documentation lists. */
  lemma UncheckedDoes(sqlRisky: string -> bool, steady: bool, run: Run, nodes: seq<AstNode>, i: nat)
    requires OperationAt(nodes, i) && Passing(sqlRisky, nodes[i].call) && !Checked(steady, nodes, i)
    ensures var c := nodes[i].call;
            match EffectOf(Op(c))
            case AltersColumn =>
              && !AlterChecked(c) && Kw(c.keywords, "new_column_name").None?
              && (Alters(run, i, c) ==> Does(sqlRisky, run, nodes, i))
            case AddsColumn =>
              !ColumnChecked(steady, nodes, i) && (AddsHard(run, nodes, i) ==> Does(sqlRisky, run, nodes, i))
            case PutsConstraint =>
              !SurelyNew(steady, nodes, i) && (OnOldTable(run, nodes, i) ==> Does(sqlRisky, run, nodes, i))
            case PutsIndex =>
              && !SurelyNew(steady, nodes, i) && !NeverTrue(ByKeyword(c, "unique"))
              && (OnOldTable(run, nodes, i) && Truthy(run.value(i, Unique, ByKeyword(c, "unique")))
                  ==> Does(sqlRisky, run, nodes, i))
            case _ => false
  {
    hide EffectOf;
    hide Alters;
    hide AddsHard;
    hide OnOldTable;
    hide SurelyNew;
    hide AlterChecked;
    hide ColumnChecked;
    hide NeverTrue;
    hide ByKeyword;
    hide MildSql;
    hide SingleLiteral;
  }

  lemma NotCreating(n: AstNode)
    requires IsOperation(n) && !EffectOf(Op(n.call)).NoEffect?
    ensures !CreatesTable(n)
  {
    assert EffectOf("create_table") == NoEffect;
  }

  lemma UniqueInWorst(steady: bool, mine: Spot, i: nat, n: nat, q: Passed)
    ensures !NeverTrue(q) ==> Truthy(Worst(steady, mine, i, n).value(i, Unique, q))
  {
    WorstAt(steady, mine, i, n);
    hide Worst;
    hide LiteralOf;
  }

  /** Such a call is harmless in every run exactly when it passes what is left to check. */
  lemma HarmlessExactly(sqlRisky: string -> bool, steady: bool, nodes: seq<AstNode>, i: nat)
    requires OperationAt(nodes, i) && Passing(sqlRisky, nodes[i].call)
    ensures AlwaysHarmless(sqlRisky, steady, nodes, i) <==> Checked(steady, nodes, i)
  {
    hide Checked;
    hide Breaks;
    hide Possible;
    hide Passing;
    if Checked(steady, nodes, i) {
      forall run | Possible(steady, run)
        ensures !Breaks(sqlRisky, run, nodes, i)
      {
        HarmlessIfChecked(sqlRisky, steady, run, nodes, i);
      }
    } else {
      var n := SomeLength(nodes);
      BreaksUnlessChecked(sqlRisky, steady, nodes, i, n);
      WorstIsPossible(steady, SpotOf(nodes[i]), i, n);
    }
  }
}
