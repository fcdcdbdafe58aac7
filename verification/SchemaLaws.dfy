/** Schemas and types of plans and expressions, from outside: their columns, and that nothing that can be
    evaluated is turned away. */
module SchemaLaws {
  import opened Wrappers
  import opened Storage
  import opened Catalog
  import opened Planner
  import opened Aggregation
  import opened Meaning
  import opened Typing
  import opened PlanLaws

  predicate NamedTyped(col: Column, name: string, expr: Expr, schema: Schema) {
    col.name == name && ExprType(expr, schema) == Ok(col.dataType)
  }

  /** A scan has the columns of its table, each qualified by the alias or the table unless its name has a
      dot already. */
  lemma ScanSchemaIs(table: string, alias: Option<string>, catalog: CatalogMap)
    requires table in catalog
    ensures PlanSchema(Scan(table, alias), catalog).Ok?
    ensures var out, stored := PlanSchema(Scan(table, alias), catalog).value.columns, catalog[table].columns;
            && |out| == |stored|
            && forall i | 0 <= i < |out| ::
                 && out[i].dataType == stored[i].dataType
                 && ('.' in stored[i].name ==> out[i].name == stored[i].name)
                 && ('.' !in stored[i].name ==>
                       out[i].name == (if alias.Some? then alias.value else table) + "." + stored[i].name)
  {
  }

  /** Filters, limits and sorts have the columns of their child, a join those of both sides. */
  lemma SchemasPassThrough(child: LogicalPlan, right: LogicalPlan, pred: Expr, limit: Option<nat>, offset: Option<nat>,
                           keys: seq<(Expr, bool)>, cond: Option<Expr>, catalog: CatalogMap)
    ensures PlanSchema(Filter(child, pred), catalog) == PlanSchema(Limit(child, limit, offset), catalog) ==
            PlanSchema(Sort(child, keys), catalog) == PlanSchema(child, catalog)
    ensures var l, r, both := PlanSchema(child, catalog), PlanSchema(right, catalog), PlanSchema(Join(child, right, cond), catalog);
            && (l.Err? ==> both == l)
            && (l.Ok? && r.Err? ==> both == r)
            && (l.Ok? && r.Ok? ==> both == Ok(Schema(l.value.columns + r.value.columns)))
  {
  }

  /** A projection has its items as columns, under their aliases, exactly if every item has a type. */
  lemma ProjectSchemaIs(child: LogicalPlan, items: seq<(Expr, string)>, catalog: CatalogMap, schema: Schema)
    requires PlanSchema(child, catalog) == Ok(schema)
    ensures PlanSchema(Project(child, items), catalog).Ok? <==> forall i | 0 <= i < |items| :: ExprType(items[i].0, schema).Ok?
    ensures PlanSchema(Project(child, items), catalog).Ok? ==>
              var out := PlanSchema(Project(child, items), catalog).value;
              |out.columns| == |items| && forall i | 0 <= i < |items| :: NamedTyped(out.columns[i], items[i].1, items[i].0, schema)
  {
    hide ExprType;
    ProjectTypes(items, schema);
  }

  /** An aggregation has its grouping expressions as columns, under their names, then its calls under theirs,
      exactly if all of them have types. */
  lemma AggSchemaIs(child: LogicalPlan, groupBy: seq<Expr>, calls: seq<AggCall>, catalog: CatalogMap, schema: Schema)
    requires PlanSchema(child, catalog) == Ok(schema)
    ensures PlanSchema(Agg(child, groupBy, calls), catalog).Ok? <==>
              && (forall i | 0 <= i < |groupBy| :: ExprType(groupBy[i], schema).Ok?)
              && (forall i | 0 <= i < |calls| :: AggType(calls[i].func, calls[i].arg, schema).Ok?)
    ensures PlanSchema(Agg(child, groupBy, calls), catalog).Ok? ==>
              var out := PlanSchema(Agg(child, groupBy, calls), catalog).value;
              && |out.columns| == |groupBy| + |calls|
              && (forall i | 0 <= i < |groupBy| :: NamedTyped(out.columns[i], ExprName(groupBy[i]), groupBy[i], schema))
              && (forall i | 0 <= i < |calls| :: CallTyped(out.columns[|groupBy| + i], calls[i], schema))
  {
    hide ExprType, AggType, ExprName;
    GroupTypes(groupBy, schema);
    CallTypes(calls, schema);
    if PlanSchema(Agg(child, groupBy, calls), catalog).Ok? {
      var keys, aggs := GroupColumns(groupBy, schema).value, AggColumns(calls, schema).value;
      assert PlanSchema(Agg(child, groupBy, calls), catalog).value.columns == keys + aggs;
      hide PlanSchema, GroupColumns, AggColumns;
      assert forall i | 0 <= i < |calls| :: (keys + aggs)[|groupBy| + i] == aggs[i];
    }
  }

  predicate CallTyped(col: Column, call: AggCall, schema: Schema) {
    col.name == call.name && AggType(call.func, call.arg, schema) == Ok(col.dataType)
  }

  lemma {:induction false} ProjectTypes(items: seq<(Expr, string)>, schema: Schema)
    ensures ProjectColumns(items, schema).Ok? <==> forall i | 0 <= i < |items| :: ExprType(items[i].0, schema).Ok?
  {
    hide ExprType;
    if items != [] {
      ProjectTypes(items[1..], schema);
      assert forall i | 0 < i < |items| :: items[i] == items[1..][i - 1];
    }
  }

  lemma {:induction false} GroupTypes(groupBy: seq<Expr>, schema: Schema)
    ensures GroupColumns(groupBy, schema).Ok? <==> forall i | 0 <= i < |groupBy| :: ExprType(groupBy[i], schema).Ok?
  {
    hide ExprType, ExprName;
    if groupBy != [] {
      GroupTypes(groupBy[1..], schema);
      assert forall i | 0 < i < |groupBy| :: groupBy[i] == groupBy[1..][i - 1];
    }
  }

  lemma {:induction false} CallTypes(calls: seq<AggCall>, schema: Schema)
    ensures AggColumns(calls, schema).Ok? <==> forall i | 0 <= i < |calls| :: AggType(calls[i].func, calls[i].arg, schema).Ok?
  {
    hide AggType;
    if calls != [] {
      CallTypes(calls[1..], schema);
      assert forall i | 0 < i < |calls| :: calls[i] == calls[1..][i - 1];
    }
  }

  /** A table that is not in the catalog has no schema, and neither has anything above it. */
  lemma NoTableNoSchema(table: string, alias: Option<string>, catalog: CatalogMap)
    requires table !in catalog
    ensures PlanSchema(Scan(table, alias), catalog) == Err(TableNotInCatalog(table))
  {
  }

  /** The types turn nothing away that can be evaluated: an expression that has a value on some row of the
      declared types has a type. */
  lemma {:induction false} EvaluableIsTyped(expr: Expr, values: seq<Value>, schema: Schema)
    requires Fits(values, schema, true) && Eval(expr, values, schema).Ok?
    ensures ExprType(expr, schema).Ok?
  {
    if expr.BinaryOp? {
      EvaluableIsTyped(expr.left, values, schema);
      EvaluableIsTyped(expr.right, values, schema);
      EvalFits(expr.left, values, schema, true);
      EvalFits(expr.right, values, schema, true);
    }
  }

  /** The types of literals, columns and operators; the literal NULL counts as VARCHAR. */
  lemma TypesOfExpressions(i: i64, f: F64, s: string, b: bool, name: string, schema: Schema)
    ensures ExprType(Const(Int(i)), schema) == Ok(IntType) && ExprType(Const(Float(f)), schema) == Ok(FloatType)
    ensures ExprType(Const(Varchar(s)), schema) == Ok(VarcharType) && ExprType(Const(Bool(b)), schema) == Ok(BoolType)
    ensures ExprType(Const(Null), schema) == Ok(VarcharType) && ExprType(Star, schema) == Err(StarHasNoType)
    ensures match schema.FindColIdx(name)
            case Some(k) => ExprType(ColRef(name), schema) == Ok(schema.columns[k].dataType)
            case None => ExprType(ColRef(name), schema) == Err(ColumnNotFound(name))
  {
  }

  /** Comparisons, AND and OR are Boolean; arithmetic is FLOAT with a FLOAT on either side, INT with two INTs,
      and nothing else; operands without a type have none together. */
  lemma TypesOfOperators(op: string, left: Expr, right: Expr, schema: Schema)
    ensures var l, r, t := ExprType(left, schema), ExprType(right, schema), ExprType(BinaryOp(op, left, right), schema);
            if l.Err? then t == l
            else if r.Err? then t == r
            else if op in ["=", "==", "!=", "<>", "<", "<=", ">", ">=", "and", "or"] then t == Ok(BoolType)
            else if op !in ["+", "-", "*", "/"] then t == Err(UnsupportedOperator(op))
            else if l.value == FloatType || r.value == FloatType then t == Ok(FloatType)
            else if l.value == IntType && r.value == IntType then t == Ok(IntType)
            else t == Err(NotNumeric)
  {
  }

  /** Which aggregates have a type, and which. */
  lemma AggTypeIs(func: string, arg: Expr, schema: Schema)
    ensures var t := ExprType(arg, schema);
            && AggType("count", arg, schema) == Ok(IntType)
            && AggType("min", arg, schema) == t && AggType("max", arg, schema) == t
            && (t == Ok(IntType) ==> AggType("sum", arg, schema) == Ok(IntType) && AggType("avg", arg, schema) == Ok(FloatType))
            && (t == Ok(FloatType) ==> AggType("sum", arg, schema) == AggType("avg", arg, schema) == Ok(FloatType))
            && (t == Ok(VarcharType) || t == Ok(BoolType) ==> AggType("sum", arg, schema) == AggType("avg", arg, schema) == Err(NotNumeric))
            && (t.Err? ==> AggType("sum", arg, schema) == AggType("avg", arg, schema) == t)
            && (!(func == "count" || func == "sum" || func == "avg" || func == "min" || func == "max") ==>
                  AggType(func, arg, schema) == Err(UnsupportedAggregate(func)) && !IsAggregateName(func))
    ensures IsAggregateName("count") && IsAggregateName("sum") && IsAggregateName("avg") && IsAggregateName("min") && IsAggregateName("max")
  {
    hide ExprType;
  }

  lemma {:induction false} SchemaMakesBuildable(plan: LogicalPlan, catalog: CatalogMap)
    requires PlanSchema(plan, catalog).Ok?
    ensures Buildable(plan, catalog) == Ok(())
  {
    match plan
    case DummyScan =>
    case Scan(_, _) =>
    case Join(left, right, _) =>
      SchemaMakesBuildable(left, catalog);
      SchemaMakesBuildable(right, catalog);
    case _ =>
      SchemaMakesBuildable(plan.child, catalog);
  }

  /** A query answers with rows exactly if its plan has a schema and delivers these rows to their end. */
  lemma AnswerIff(plan: LogicalPlan, catalog: CatalogMap, ctx: ExecutionContext, answer: ResultSet)
    ensures QueryResult(plan, catalog, ctx) == Ok(answer) <==>
            PlanSchema(plan, catalog) == Ok(answer.schema) && Delivers(plan, catalog, ctx, answer.rows, Done)
  {
    hide PlanSchema, Denote, Buildable;
    if PlanSchema(plan, catalog).Ok? {
      SchemaMakesBuildable(plan, catalog);
    }
  }

  /** A query whose plan has a schema fails exactly as the plan does. */
  lemma FailureIff(plan: LogicalPlan, catalog: CatalogMap, ctx: ExecutionContext, e: Error)
    requires PlanSchema(plan, catalog).Ok?
    ensures QueryResult(plan, catalog, ctx) == Err(e) <==>
            FailsToStart(plan, catalog, ctx, e) || exists rows :: Delivers(plan, catalog, ctx, rows, Fail(e))
  {
    hide PlanSchema, Denote, Buildable;
    SchemaMakesBuildable(plan, catalog);
    var o := Denote(plan, catalog, ctx);
    if o.Started? && o.stream.end == Fail(e) {
      assert Delivers(plan, catalog, ctx, o.stream.rows, Fail(e));
    }
  }
}
