/** Queries with wrong answers or panics: runs and plans for which the conditions of the theorems fail. */
module QueryCounterexamples {
  import opened Wrappers
  import opened Storage
  import opened Catalog
  import opened Planner
  import opened Transactions
  import opened Sequences
  import opened Aggregation
  import opened GroupKey
  import opened Meaning
  import opened Grouping
  import opened GroupByTypes
  import opened Typing
  import opened Handler
  import opened Recovery
  import opened Server
  import opened Lifecycle
  import opened AggregateRewrite
  import opened GroupedQuery
  import opened WriteAhead
  import opened Isolation
  import opened Restart
  import opened Counterexamples
  import Names

  // One row in one table.

  /** A client creates a table and inserts one row, outside of transactions. */
  function OneRowIn(schema: Schema, row: seq<Expr>, order: HashOrder): seq<Step> {
    [Run(1, CreateTable("t", schema), order), Run(1, InsertInto("t", [row]), order)]
  }

  lemma OneRowStored(schema: Schema, row: seq<Expr>, vals: seq<Value>, order: HashOrder)
    requires RowValues(row, |schema.columns|) == Ok(vals)
    ensures var w := Play(Fresh(), OneRowIn(schema, row, order));
            && w.db.catalog == map["t" := schema] && w.db.tables == map["t" := [Tuple(vals, None, 0)]] && Idle(w)
  {
    hide RowValues;
    var width := |schema.columns|;
    assert Lower("t") == "t";
    assert [row][1..] == [] && Accepted([], width) == [] && [vals] + [] == [vals];
    assert Accepted([row], width) == [vals];
    assert Tuples([vals], None, 0) == [Tuple(vals, None, 0)];
    assert RowsIn(map[], "t") + [Tuple(vals, None, 0)] == [Tuple(vals, None, 0)];
    OneTableLoaded(Fresh(), 1, DemoTable("t", schema, [row]), order);
    PlayTwo(Fresh(), [], Run(1, CreateTable("t", schema), order), Run(1, InsertInto("t", [row]), order));
    assert [] + OneRowIn(schema, row, order) == OneRowIn(schema, row, order);
  }

  lemma ProjectOneRow(row: Tuple, exprs: seq<Expr>, schema: Schema)
    ensures ProjectStream(Stream([row], Done), exprs, schema) ==
            match EvalAll(exprs, row.values, schema)
            case Err(e) => Stream([], Fail(e))
            case Ok(vs) => Stream([Plain(vs)], Done)
  {
    hide EvalAll;
    assert Stream([row], Done).Tail() == Stream([], Done);
    assert ProjectStream(Stream([], Done), exprs, schema) == Stream([], Done);
  }

  /** SELECT items FROM t, where t holds one row that everybody sees. */
  lemma SelectFromOneRow(w: World, sid: nat, vals: seq<Value>, items: seq<(Expr, string)>, order: HashOrder)
    requires "t" in w.db.catalog && w.db.tables == map["t" := [Tuple(vals, None, 0)]]
    requires PlanSchema(Project(Scan("t", None), items), w.db.catalog).Ok?
    ensures PlanSchema(Scan("t", None), w.db.catalog).Ok?
    ensures var plan := Project(Scan("t", None), items);
            var scanned := PlanSchema(Scan("t", None), w.db.catalog).value;
            ResponseTo(w, Run(sid, Query(plan), order)) ==
            match EvalAll(Exprs(items), vals, scanned)
            case Err(e) => Err(e)
            case Ok(vs) => Ok(Answer(ResultSet(PlanSchema(plan, w.db.catalog).value, [Plain(vs)])))
  {
    hide ProjectStream, EvalAll, Qualify;
    var scan, plan := Scan("t", None), Project(Scan("t", None), items);
    var ctx, row := Reader(w.db, w.SessionOf(sid).current, order), Tuple(vals, None, 0);
    var scanned := PlanSchema(scan, w.db.catalog).value;
    VisibleIsSelect(ctx, [row]);
    SelectOne(row, (r: Tuple) => ctx.Sees(r));
    ScanEnds(ctx, "t");
    DenoteUnfolds(plan, w.db.catalog, ctx);
    ProjectOneRow(row, Exprs(items), scanned);
    assert Denote(scan, w.db.catalog, ctx) == Started(Stream([row], Done));
    assert Buildable(scan, w.db.catalog) == Ok(());
    assert Buildable(plan, w.db.catalog) == BuildableWithSchema(scan, w.db.catalog) == Ok(());
    QueryResponse(w, sid, plan, order);
  }

  lemma ColumnNamed(catalog: CatalogMap, i: nat, name: string)
    requires "t" in catalog && i < |catalog["t"].columns| && catalog["t"].columns[i].name == name && Names.PlainTable(catalog["t"])
    ensures PlanSchema(Scan("t", None), catalog).Ok?
    ensures var schema := PlanSchema(Scan("t", None), catalog).value;
            schema.FindColIdx(name) == Some(i) && ExprType(ColRef(name), schema) == Ok(catalog["t"].columns[i].dataType)
  {
    Names.ScannedColumnIsFound(catalog, "t", None, i, "u");
    assert PlanSchema(Scan("t", None), catalog).value.columns[i].dataType == catalog["t"].columns[i].dataType;
  }

  /** The schema of a projection to one item. */
  lemma OneItemSchema(catalog: CatalogMap, expr: Expr, name: string, t: DataType)
    requires PlanSchema(Scan("t", None), catalog).Ok? && ExprType(expr, PlanSchema(Scan("t", None), catalog).value) == Ok(t)
    ensures PlanSchema(Project(Scan("t", None), [(expr, name)]), catalog) == Ok(Schema([Column(name, t)]))
  {
    hide Qualify, ExprType;
    var schema := PlanSchema(Scan("t", None), catalog).value;
    assert [(expr, name)][1..] == [];
    assert ProjectColumns([], schema) == Ok([]);
    assert [Column(name, t)] + [] == [Column(name, t)];
    assert ProjectColumns([(expr, name)], schema) == Ok([Column(name, t)]);
  }

  lemma EvalOne(expr: Expr, values: seq<Value>, schema: Schema)
    ensures EvalAll([expr], values, schema) ==
            match Eval(expr, values, schema)
            case Err(e) => Err(e)
            case Ok(v) => Ok([v])
  {
    hide Eval;
    assert [expr][1..] == [] && EvalAll([], values, schema) == Ok([]);
    assert Eval(expr, values, schema).Ok? ==> [Eval(expr, values, schema).value] + [] == [Eval(expr, values, schema).value];
  }

  // A value of the wrong type.

  /** INSERT counts values and does not look at their types: CREATE TABLE t (a INT), INSERT 'x', SELECT a
      answers with a string in a column declared INT. */
  lemma WrongTypeIsAnswered(order: HashOrder)
    ensures var w := Play(Fresh(), OneRowIn(OneColumn(), [Const(Varchar("x"))], order));
            var schema, rows := Schema([Column("a", IntType)]), [Plain([Varchar("x")])];
            && ResponseTo(w, Run(2, Query(Project(Scan("t", None), [(ColRef("a"), "a")])), order)) == Ok(Answer(ResultSet(schema, rows)))
            && RowsFit(rows, schema, false) && !RowsFit(rows, schema, true)
  {
    hide Play, Fresh, PlanSchema, ExprType, ResponseTo;
    var w := Play(Fresh(), OneRowIn(OneColumn(), [Const(Varchar("x"))], order));
    EvalOne(Const(Varchar("x")), [], Schema([]));
    OneRowStored(OneColumn(), [Const(Varchar("x"))], [Varchar("x")], order);
    ColumnNamed(w.db.catalog, 0, "a");
    OneItemSchema(w.db.catalog, ColRef("a"), "a", IntType);
    var items := [(ColRef("a"), "a")];
    assert Exprs(items) == [ColRef("a")];
    SelectFromOneRow(w, 2, [Varchar("x")], items, order);
    EvalOne(ColRef("a"), [Varchar("x")], PlanSchema(Scan("t", None), w.db.catalog).value);
    var rows := [Plain([Varchar("x")])];
    assert !HasType(rows[0].values[0], IntType);
  }

  // The smallest integer over -1.

  /** 0 - 9223372036854775807 - 1 and 0 - 1 */
  function SmallestAndMinusOne(): seq<Expr> {
    [BinaryOp("-", BinaryOp("-", Const(Int(0)), Const(Int(TWO63 - 1))), Const(Int(1))),
     BinaryOp("-", Const(Int(0)), Const(Int(1)))]
  }

  lemma SmallestStored()
    ensures RowValues(SmallestAndMinusOne(), 2) == Ok([Int(-TWO63), Int(-1)])
  {
    var row, none := SmallestAndMinusOne(), Schema([]);
    assert Wrap64(0 - (TWO63 - 1)) == 1 - TWO63 && Wrap64(1 - TWO63 - 1) == -TWO63 && Wrap64(0 - 1) == -1;
    hide Wrap64;
    assert Eval(BinaryOp("-", Const(Int(0)), Const(Int(TWO63 - 1))), [], none) == Ok(Int(1 - TWO63));
    assert Eval(row[0], [], none) == Ok(Int(-TWO63));
    assert Eval(row[1], [], none) == Ok(Int(-1));
    EvalAllIs(row, [Int(-TWO63), Int(-1)], [], none);
  }

  function Quotient(): Expr {
    BinaryOp("/", ColRef("a"), ColRef("b"))
  }

  function TwoIntegers(): Schema {
    Schema([Column("a", IntType), Column("b", IntType)])
  }

  lemma TwoIntegersPlain()
    ensures Names.PlainTable(TwoIntegers()) && Names.PlainTable(OneColumn())
  {
    assert "a" != "b" by {
      assert "a"[0] != "b"[0];
    }
  }

  /** CREATE TABLE t (a INT, b INT), INSERT the smallest integer and -1, SELECT a / b: the query panics. */
  lemma DivisionPanics(order: HashOrder)
    ensures var w := Play(Fresh(), OneRowIn(TwoIntegers(), SmallestAndMinusOne(), order));
            ResponseTo(w, Run(2, Query(Project(Scan("t", None), [(Quotient(), "q")])), order)) == Err(PanicDivisionOverflow)
  {
    hide Play, Fresh, PlanSchema, ResponseTo, SmallestAndMinusOne, RowValues;
    var w := Play(Fresh(), OneRowIn(TwoIntegers(), SmallestAndMinusOne(), order));
    SmallestStored();
    OneRowStored(TwoIntegers(), SmallestAndMinusOne(), [Int(-TWO63), Int(-1)], order);
    TwoIntegersPlain();
    ColumnNamed(w.db.catalog, 0, "a");
    ColumnNamed(w.db.catalog, 1, "b");
    var schema := PlanSchema(Scan("t", None), w.db.catalog).value;
    var vals := [Int(-TWO63), Int(-1)];
    assert ExprType(Quotient(), schema) == Ok(IntType);
    OneItemSchema(w.db.catalog, Quotient(), "q", IntType);
    var items := [(Quotient(), "q")];
    assert Exprs(items) == [Quotient()];
    SelectFromOneRow(w, 2, vals, items, order);
    assert Eval(ColRef("a"), vals, schema) == Ok(Int(-TWO63)) && Eval(ColRef("b"), vals, schema) == Ok(Int(-1));
    EvalOne(Quotient(), vals, schema);
  }

  // Two aggregate calls with one generated name.

  function ClashingItems(): Items {
    [(FuncCall("min", Const(Varchar("1"))), "a"), (FuncCall("min", Const(Int(1))), "b")]
  }

  function FirstCall(): seq<AggCall> {
    [AggCall("min", Const(Varchar("1")), "min(1)")]
  }

  function BothReadFirst(): Items {
    [(ColRef("min(1)"), "a"), (ColRef("min(1)"), "b")]
  }

  lemma ClashPlan()
    ensures BoundProjection(DummyScan, [], ClashingItems()) == Project(Agg(DummyScan, [], FirstCall()), BothReadFirst())
  {
    var items, calls := ClashingItems(), FirstCall();
    var first, second := items[0].0, items[1].0;
    LiteralsClash();
    assert CallName("min", Const(Varchar("1"))) == "min" + "(" + "1" + ")" == "min(1)";
    assert !Named([], "min(1)") && [] + calls == calls;
    assert Extracted(first, []) == (ColRef("min(1)"), calls);
    assert calls[0].name == "min(1)";
    assert Extracted(second, calls) == (ColRef("min(1)"), calls);
    assert items[1..] == [(second, "b")] && items[1..][1..] == [];
    assert ExtractedItems([], calls) == ([], calls);
    var x, y := (ColRef("min(1)"), "a"), (ColRef("min(1)"), "b");
    assert [y] + [] == [y] && [x] + [y] == [x, y];
    assert ExtractedItems(items[1..], calls) == ([y], calls);
    assert ExtractedItems(items, []) == (BothReadFirst(), calls);
    assert HasAggFuncs(items[0].0);
  }

  lemma MinOfOne(v: Value)
    requires !v.Null?
    ensures Aggregate("min", [v]) == v
  {
    assert [v][..0] == [];
    assert Fold(MinState(Null), []) == MinState(Null);
  }

  function ClashKeyed(): seq<KeyedRow> {
    [KeyedRow("", [], [Varchar("1")])]
  }

  lemma ClashMembers()
    ensures Members(ClashKeyed(), "") == ClashKeyed() && Keys(ClashKeyed()) == {""}
    ensures ArgsFit(ClashKeyed(), FirstCall()) && KnownCalls(FirstCall())
  {
    var keyed := ClashKeyed();
    assert keyed[..0] == [] && keyed[0].key == "";
    assert Members([], "") == [] && [] + [keyed[0]] == keyed;
  }

  lemma ClashRow()
    requires ArgsFit(ClashKeyed(), FirstCall()) && KnownCalls(FirstCall())
    ensures GroupRow(ClashKeyed(), FirstCall()) == Plain([Varchar("1")])
  {
    hide Fold;
    MinOfOne(Varchar("1"));
    var states := GroupStates(ClashKeyed(), FirstCall());
    assert Argument(ClashKeyed(), 0) == [Varchar("1")];
    assert Finals(states) == [Varchar("1")];
    assert [] + [Varchar("1")] == [Varchar("1")];
  }

  lemma ClashRows(order: seq<string>)
    requires Enumerates(order, {""})
    requires ArgsFit(ClashKeyed(), FirstCall()) && KnownCalls(FirstCall()) && Keys(ClashKeyed()) == {""}
    ensures GroupRows(order, ClashKeyed(), FirstCall()) == [Plain([Varchar("1")])]
  {
    hide Members, GroupRow, Keys;
    OneKey(order, "");
    assert order == [""] && order[1..] == [];
    ClashMembers();
    ClashRow();
  }

  /** The aggregation delivers one row with one column. */
  lemma ClashAggregation(catalog: CatalogMap, ctx: ExecutionContext)
    ensures Denote(Agg(DummyScan, [], FirstCall()), catalog, ctx) == Started(Stream([Plain([Varchar("1")])], Done))
  {
    hide KeyRow, Denote, GroupRows, FirstCall, Members, ClashKeyed;
    DenoteUnfolds(Agg(DummyScan, [], FirstCall()), catalog, ctx);
    DenoteUnfolds(DummyScan, catalog, ctx);
    ClashKey();
    KeyOneRow(Plain([]), [], FirstCall(), Schema([]));
    OneKeyed();
    ClashMembers();
    ClashRows(ctx.hashOrder(Keys(ClashKeyed())));
  }

  lemma OneKeyed()
    ensures ClashKeyed() == [KeyedRow("", [], [Varchar("1")])]
  {
  }

  lemma ClashKey()
    ensures KeyRow(Plain([]), [], FirstCall(), Schema([])) == Ok(KeyedRow("", [], [Varchar("1")]))
  {
    var calls := FirstCall();
    assert EvalAll([], [], Schema([])) == Ok([]);
    assert calls[1..] == [] && EvalArgs([], [], Schema([])) == Ok([]);
    assert [Varchar("1")] + [] == [Varchar("1")];
    assert EvalArgs(calls, [], Schema([])) == Ok([Varchar("1")]);
    assert MakeGroupKey([]) == "";
  }

  function ClashOutput(): Schema {
    Schema([Column("min(1)", VarcharType)])
  }

  lemma ClashOutputFound()
    ensures ClashOutput().FindColIdx("min(1)") == Some(0)
    ensures ExprType(ColRef("min(1)"), ClashOutput()) == Ok(VarcharType)
  {
    BaseOfPlainName("min(1)");
    assert Matches(ClashOutput().columns[0], "min(1)");
  }

  lemma ClashAggSchema(catalog: CatalogMap)
    ensures PlanSchema(Agg(DummyScan, [], FirstCall()), catalog) == Ok(ClashOutput())
  {
    var none, calls, columns := Schema([]), FirstCall(), ClashOutput().columns;
    assert calls[1..] == [] && AggColumns([], none) == Ok([]) && GroupColumns([], none) == Ok([]);
    assert AggType("min", Const(Varchar("1")), none) == Ok(VarcharType);
    assert columns + [] == columns && [] + columns == columns;
    assert AggColumns(calls, none) == Ok(columns);
  }

  lemma ClashColumns()
    ensures ProjectColumns(BothReadFirst(), ClashOutput()) == Ok([Column("a", VarcharType), Column("b", VarcharType)])
  {
    hide ExprType, ClashOutput;
    var items, out := BothReadFirst(), ClashOutput();
    var a, b := Column("a", VarcharType), Column("b", VarcharType);
    ClashOutputFound();
    assert items[1..] == [(ColRef("min(1)"), "b")] && items[1..][1..] == [];
    assert [b] + [] == [b] && [a] + [b] == [a, b];
    assert ProjectColumns([], out) == Ok([]);
    assert ProjectColumns(items[1..], out) == Ok([b]);
  }

  lemma ClashSchemas(catalog: CatalogMap)
    ensures PlanSchema(Agg(DummyScan, [], FirstCall()), catalog) == Ok(ClashOutput())
    ensures PlanSchema(Project(Agg(DummyScan, [], FirstCall()), BothReadFirst()), catalog) ==
            Ok(Schema([Column("a", VarcharType), Column("b", VarcharType)]))
  {
    hide ProjectColumns, AggColumns, GroupColumns, ClashOutput;
    ClashAggSchema(catalog);
    ClashColumns();
  }

  /** SELECT MIN('1'), MIN(1), without a table: the answer is '1', '1' where the select items, read over the
      one row of the group, are '1' and 1. */
  lemma ClashGivesWrongAnswer(catalog: CatalogMap, ctx: ExecutionContext)
    ensures var schema := Schema([Column("a", VarcharType), Column("b", VarcharType)]);
            QueryResult(BoundProjection(DummyScan, [], ClashingItems()), catalog, ctx) ==
            Ok(ResultSet(schema, [Plain([Varchar("1"), Varchar("1")])]))
    ensures EvalItemsOverGroup(ClashingItems(), [Plain([])], Schema([])) == Ok([Varchar("1"), Int(1)])
  {
    hide Denote, PlanSchema, BoundProjection, ProjectStream, Buildable;
    var agg, items, out := Agg(DummyScan, [], FirstCall()), BothReadFirst(), ClashOutput();
    ClashPlan();
    ClashAggregation(catalog, ctx);
    ClashSchemas(catalog);
    ClashOutputFound();
    DenoteUnfolds(Project(agg, items), catalog, ctx);
    ProjectOneRow(Plain([Varchar("1")]), Exprs(items), out);
    ClashBuilds(catalog);
    ClashValues(out);
    ClashMeaning();
  }

  lemma ClashBuilds(catalog: CatalogMap)
    ensures Buildable(Project(Agg(DummyScan, [], FirstCall()), BothReadFirst()), catalog) == Ok(())
  {
    ClashSchemas(catalog);
    assert PlanSchema(DummyScan, catalog) == Ok(Schema([]));
    hide PlanSchema;
    assert Buildable(DummyScan, catalog) == Ok(());
    assert Buildable(Agg(DummyScan, [], FirstCall()), catalog) == BuildableWithSchema(DummyScan, catalog) == Ok(());
  }

  lemma ClashValues(out: Schema)
    requires out.FindColIdx("min(1)") == Some(0)
    ensures EvalAll(Exprs(BothReadFirst()), [Varchar("1")], out) == Ok([Varchar("1"), Varchar("1")])
  {
    EvalAllIs(Exprs(BothReadFirst()), [Varchar("1"), Varchar("1")], [Varchar("1")], out);
  }

  lemma ClashMeaning()
    ensures EvalItemsOverGroup(ClashingItems(), [Plain([])], Schema([])) == Ok([Varchar("1"), Int(1)])
  {
    var items, group, none := ClashingItems(), [Plain([])], Schema([]);
    hide Fold;
    MinOfOne(Varchar("1"));
    MinOfOne(Int(1));
    assert group[1..] == [];
    assert ArgValues(Const(Varchar("1")), [], none) == Ok([]) && ArgValues(Const(Int(1)), [], none) == Ok([]);
    assert [Varchar("1")] + [] == [Varchar("1")] && [Int(1)] + [] == [Int(1)];
    assert EvalOverGroup(items[0].0, group, none) == Ok(Varchar("1"));
    assert EvalOverGroup(items[1].0, group, none) == Ok(Int(1));
    assert items[1..][1..] == [] && EvalItemsOverGroup([], group, none) == Ok([]);
    assert EvalItemsOverGroup(items[1..], group, none) == Ok([Int(1)]);
    assert [Varchar("1")] + [Int(1)] == [Varchar("1"), Int(1)];
  }
}
