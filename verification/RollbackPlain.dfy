/**
Migrations written the plain way - arguments spelled out, names and flags as literals - are judged exactly right: the
lint has a finding if and only if the call can do one of the documented things.
*/
module RollbackPlain {
  import opened Wrappers
  import opened MigrationBodies
  import opened RollbackLint
  import opened RollbackRuns
  import opened RollbackTruth

  predicate LiteralFlag(p: Passed) { p.Absent? || p == Given(Constant(BoolValue(true)))
                                    || p == Given(Constant(BoolValue(false))) }

  /** A rename or a type is given as something, a flag as a boolean, a server default as None or as something. */
  predicate PlainAlter(c: CallExpr) {
    && Written(c) && LiteralFlag(ByKeyword(c, "nullable"))
    && NeverNone(ByKeyword(c, "new_column_name")) && NeverNone(ByKeyword(c, "type_"))
    && (NeverNone(ByKeyword(c, "server_default")) || ByKeyword(c, "server_default") == Given(Constant(NoneValue)))
  }

  /** A column with literal flags, a default that is there if one is given, and no constraint or generated value. */
  predicate PlainColumn(e: Expr) {
    && IsColumn(e) && Written(e.call)
    && LiteralFlag(ByKeyword(e.call, "nullable")) && NeverTrue(ByKeyword(e.call, "primary_key"))
    && NeverNone(ByKeyword(e.call, "server_default"))
    && NeverTrue(ByKeyword(e.call, "unique")) && forall item | item in Items(e.call) :: KindOf(item) == Some(Harmless)
  }

  /** The column is the last positional argument and the only call among them. */
  predicate PlainAdd(n: AstNode)
    requires IsOperation(n)
  {
    var args := n.call.args;
    && args != [] && ColumnSpot(n) == Given(args[|args| - 1]) && PlainColumn(args[|args| - 1])
    && forall k | 0 <= k < |args| - 1 :: !args[k].Call?
  }

  /**
  The table is a literal the lint reads where it is meant, and so is every table created, in no schema of its own.
  */
  predicate PlainTable(nodes: seq<AstNode>, i: nat)
    requires OperationAt(nodes, i)
  {
    && IsRead(SeenBy(nodes, i)) && SpotOf(nodes[i]) == Spot(AsPassed(SeenBy(nodes, i)), Absent)
    && forall n | n in nodes :: PlainCreate(n) && (CreatesTable(n) ==> IsRead(CreatedName(n)))
  }

  predicate PlainCall(nodes: seq<AstNode>, i: nat)
    requires OperationAt(nodes, i)
  {
    var c := nodes[i].call;
    match EffectOf(Op(c))
    case AltersColumn => PlainAlter(c)
    case AddsColumn => PlainAdd(nodes[i])
    case PutsConstraint => PlainTable(nodes, i)
    case PutsIndex => PlainTable(nodes, i) && Written(c) && LiteralFlag(ByKeyword(c, "unique"))
    case RunsSql => Written(c)
    case _ => true
  }

  // ---- what the lint makes of a plain call ----

  lemma WrittenKeyword(c: CallExpr, name: string)
    requires Written(c)
    ensures ByKeyword(c, name) == AsPassed(Kw(c.keywords, name))
  {}

  lemma TableRead(steady: bool, nodes: seq<AstNode>, i: nat)
    requires OperationAt(nodes, i) && PlainTable(nodes, i)
    ensures Named(nodes, SeenBy(nodes, i)) <==> SurelyNew(steady, nodes, i)
  {
    var seen := SeenBy(nodes, i);
    hide SeenBy;
    if Named(nodes, seen) {
      var j :| 0 <= j < |nodes| && NamedAt(nodes, j, seen);
      assert PlainCreate(nodes[j]);
      CreatedHere(nodes[j]);
      hide SpotOf;
      assert MadeAt(steady, nodes, j, SpotOf(nodes[i]));
    }
    if SurelyNew(steady, nodes, i) {
      var j :| 0 <= j < |nodes| && MadeAt(steady, nodes, j, SpotOf(nodes[i]));
      assert PlainCreate(nodes[j]);
      CreatedHere(nodes[j]);
      hide SpotOf;
      SameLiteral(steady, AsPassed(CreatedName(nodes[j])), AsPassed(seen));
      assert NamedAt(nodes, j, seen);
    }
  }

  lemma SameLiteral(steady: bool, a: Passed, b: Passed)
    requires a.Given? && a.e.Constant? && b.Given? && b.e.Constant? && NameKnown(steady, a) == NameKnown(steady, b)
    ensures a == b
  {}

  lemma AlterRead(sqlRisky: string -> bool, c: CallExpr, created: set<Value>, batch: map<string, Value>)
    requires c.func.Attribute? && Op(c) == "alter_column" && PlainAlter(c)
    ensures Risks(sqlRisky, c, created, batch) == []
            <==> AlterChecked(c) && Kw(c.keywords, "new_column_name").None? && Kw(c.keywords, "type_").None?
  {
    RisksExact(sqlRisky, c, created, batch);
    hide Risks;
    WrittenKeyword(c, "nullable");
    WrittenKeyword(c, "server_default");
    hide ByKeyword;
    hide FromLibrary;
    hide JoinedText;
    hide SingleLiteral;
  }

  lemma AddRead(sqlRisky: string -> bool, n: AstNode, created: set<Value>, batch: map<string, Value>)
    requires IsOperation(n) && Op(n.call) == "add_column" && PlainAdd(n)
    ensures Risks(sqlRisky, n.call, created, batch) == []
            <==> var c := n.call.args[|n.call.args| - 1].call; NeverNotNull(c) || SurelyDefaulted(c)
  {
    RisksExact(sqlRisky, n.call, created, batch);
    hide Risks;
    var args := n.call.args;
    var last := args[|args| - 1];
    ColumnRead(last);
    hide IsNotNullColumn;
    hide PlainColumn;
    hide NeverNotNull;
    hide SurelyDefaulted;
    hide SingleLiteral;
    forall a | a in args && a != last
      ensures !a.Call?
    {
      var k :| 0 <= k < |args| && args[k] == a;
    }
    NoCallIsFine();
  }

  lemma NoCallIsFine()
    ensures forall a: Expr | !a.Call? :: !IsNotNullColumn(a)
  {}

  lemma ColumnRead(e: Expr)
    requires PlainColumn(e)
    ensures IsNotNullColumn(e) <==> !(NeverNotNull(e.call) || SurelyDefaulted(e.call))
  {
    WrittenKeyword(e.call, "nullable");
    WrittenKeyword(e.call, "server_default");
    hide ByKeyword;
    hide KindOf;
    hide FromLibrary;
    hide JoinedText;
    hide Items;
  }

  lemma ConstraintRead(sqlRisky: string -> bool, steady: bool, nodes: seq<AstNode>, i: nat)
    requires OperationAt(nodes, i) && AddsConstraint(nodes[i].call) && PlainTable(nodes, i)
    ensures Risks(sqlRisky, nodes[i].call, Created(nodes), Batches(nodes)) == [] <==> SurelyNew(steady, nodes, i)
  {
    SilentIs(sqlRisky, nodes, i);
    TableRead(steady, nodes, i);
    hide SeenBy;
    hide Risks;
    hide SurelyNew;
  }

  lemma IndexRead(c: CallExpr)
    requires c.func.Attribute? && Op(c) == "create_index" && Written(c) && LiteralFlag(ByKeyword(c, "unique"))
    ensures AddsConstraint(c) <==> !NeverTrue(ByKeyword(c, "unique"))
  {
    WrittenKeyword(c, "unique");
    hide ByKeyword;
  }

  lemma OtherwiseRead(sqlRisky: string -> bool, c: CallExpr, created: set<Value>, batch: map<string, Value>)
    requires c.func.Attribute?
    ensures EffectOf(Op(c)).Drops? ==> Risks(sqlRisky, c, created, batch) != []
    ensures EffectOf(Op(c)).RunsSql? ==>
              (Risks(sqlRisky, c, created, batch) == []
               <==> SingleLiteral(c).Some? && !sqlRisky(SingleLiteral(c).value))
    ensures EffectOf(Op(c)).NoEffect? ==> Risks(sqlRisky, c, created, batch) == []
    ensures EffectOf(Op(c)).PutsIndex? && !AddsConstraint(c) ==> Risks(sqlRisky, c, created, batch) == []
    ensures EffectOf(Op(c)).PutsConstraint? ==> AddsConstraint(c)
  {
    RisksExact(sqlRisky, c, created, batch);
    hide Risks;
    hide ConstraintTable;
    hide SingleLiteral;
    hide IsNotNullColumn;
  }

  /** What a plain call's findings say of it: it passes what is left to check, and nothing the lint stops. */
  lemma PlainRead(sqlRisky: string -> bool, steady: bool, nodes: seq<AstNode>, i: nat)
    requires OperationAt(nodes, i) && PlainCall(nodes, i)
    ensures Risks(sqlRisky, nodes[i].call, Created(nodes), Batches(nodes)) == []
            <==> Passing(sqlRisky, nodes[i].call) && Checked(steady, nodes, i)
  {
    var c := nodes[i].call;
    var created, batch := Created(nodes), Batches(nodes);
    OtherwiseRead(sqlRisky, c, created, batch);
    Effects(c);
    match EffectOf(Op(c))
    case AltersColumn =>
      AlterRead(sqlRisky, c, created, batch);
    case AddsColumn =>
      AddRead(sqlRisky, nodes[i], created, batch);
      AddChecked(steady, nodes, i);
    case PutsConstraint =>
      ConstraintRead(sqlRisky, steady, nodes, i);
    case PutsIndex =>
      IndexRead(c);
      if AddsConstraint(c) {
        ConstraintRead(sqlRisky, steady, nodes, i);
      }
    case _ =>
  }

  lemma Effects(c: CallExpr)
    requires c.func.Attribute?
    ensures EffectOf(Op(c)).AltersColumn? ==> Op(c) == "alter_column"
    ensures EffectOf(Op(c)).AddsColumn? ==> Op(c) == "add_column"
    ensures EffectOf(Op(c)).PutsIndex? ==> Op(c) == "create_index"
  {}

  lemma AddChecked(steady: bool, nodes: seq<AstNode>, i: nat)
    requires OperationAt(nodes, i) && PlainAdd(nodes[i])
    ensures ColumnChecked(steady, nodes, i)
            <==> var args := nodes[i].call.args; var c := args[|args| - 1].call; NeverNotNull(c) || SurelyDefaulted(c)
  {
    hide ColumnSpot;
    hide SurelyNew;
    hide NeverNotNull;
    hide SurelyDefaulted;
    hide KindOf;
    hide ByKeyword;
    hide IsColumn;
    hide Written;
  }

  // ---- what a plain call does ----

  lemma SpelledIs(c: CallExpr, sql: string)
    requires Written(c) && Statement(c).Given? && Spells(Statement(c).e, sql)
    ensures SingleLiteral(c) == Some(sql)
  {
    hide JoinedText;
    if c.args != [] {
      assert c.args[..0 + 1] == [c.args[0]];
    }
  }

  lemma StoppedDoes(sqlRisky: string -> bool, run: Run, nodes: seq<AstNode>, i: nat)
    requires OperationAt(nodes, i) && PlainCall(nodes, i) && !Passing(sqlRisky, nodes[i].call) && Agrees(run)
    ensures Does(sqlRisky, run, nodes, i)
  {
    var c := nodes[i].call;
    hide EffectOf;
    hide OnOldTable;
    hide AddsHard;
    hide SingleLiteral;
    hide Statement;
    match EffectOf(Op(c))
    case AltersColumn =>
      ArgumentAgrees(run, i, NewColumnName, ByKeyword(c, "new_column_name"));
      ArgumentAgrees(run, i, NewType, ByKeyword(c, "type_"));
      hide Agrees;
      hide FromLibrary;
      hide JoinedText;
    case RunsSql =>
      hide Agrees;
      forall sql | Statement(c).Given? && Spells(Statement(c).e, sql)
        ensures sqlRisky(sql)
      {
        SpelledIs(c, sql);
      }
      hide Spells;
    case _ =>
  }

  /**
  A plain call has a finding exactly when it can do one of the documented things: nothing is missed, and nothing
  harmless is flagged.
  */
  lemma PlainExactly(sqlRisky: string -> bool, steady: bool, nodes: seq<AstNode>, i: nat)
    requires OperationAt(nodes, i) && PlainCall(nodes, i)
    ensures Risks(sqlRisky, nodes[i].call, Created(nodes), Batches(nodes)) == []
            <==> AlwaysHarmless(sqlRisky, steady, nodes, i)
  {
    PlainRead(sqlRisky, steady, nodes, i);
    if Passing(sqlRisky, nodes[i].call) {
      HarmlessExactly(sqlRisky, steady, nodes, i);
    } else {
      var run := Worst(steady, SpotOf(nodes[i]), i, 1);
      WorstIsPossible(steady, SpotOf(nodes[i]), i, 1);
      MadeInWorst(steady, SpotOf(nodes[i]), i, 1, nodes[i].certain);
      hide Worst;
      PossibleAgrees(steady, run);
      StoppedDoes(sqlRisky, run, nodes, i);
      hide Does;
      assert Breaks(sqlRisky, run, nodes, i);
    }
  }

  lemma PossibleAgrees(steady: bool, run: Run)
    requires Possible(steady, run)
    ensures Agrees(run)
  {}
}
