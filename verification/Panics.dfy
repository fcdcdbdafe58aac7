/** Panics of queries: no operator reads out of bounds, and exactly where the other panics come from. */
module Panics {
  import opened Wrappers
  import opened Storage
  import opened Catalog
  import opened Planner
  import opened Transactions
  import opened Meaning
  import opened Typing
  import opened MeaningLaws
  import opened AggregateRewrite
  import opened Handler
  import opened Server
  import opened Lifecycle
  import opened StoredRows
  import opened Isolation
  import Sorting
  import PlanLaws

  /** Every aggregate of the plan is one the engine knows. */
  predicate KnownAggregates(plan: LogicalPlan) {
    match plan
    case DummyScan => true
    case Scan(_, _) => true
    case Join(left, right, _) => KnownAggregates(left) && KnownAggregates(right)
    case Agg(child, _, calls) => KnownAggregates(child) && KnownCalls(calls)
    case Filter(child, _) => KnownAggregates(child)
    case Project(child, _) => KnownAggregates(child)
    case Limit(child, _, _) => KnownAggregates(child)
    case Sort(child, _) => KnownAggregates(child)
  }

  /** The plans of the binder only have known aggregates. */
  lemma BoundPlansAreKnown(child: LogicalPlan, groupBy: seq<Expr>, items: Items)
    requires KnownAggregates(child)
    ensures KnownAggregates(BoundProjection(child, groupBy, items))
  {
    hide Extracted, CallName, CallsInItems, HasAggFuncs;
    ItemsAreComplete(items, [], CallsInItems(items));
  }

  // Errors of schemas and of building are never panics.

  ghost predicate Clean<T>(r: Result<T>) {
    r.Err? ==> !r.error.IsPanic()
  }

  lemma {:induction false} TypeErrorsAreClean(expr: Expr, schema: Schema)
    ensures Clean(ExprType(expr, schema))
  {
    match expr
    case BinaryOp(_, left, right) =>
      TypeErrorsAreClean(left, schema);
      TypeErrorsAreClean(right, schema);
    case FuncCall(func, arg) => TypeErrorsAreClean(arg, schema);
    case _ =>
  }

  lemma {:induction false} ColumnErrorsAreClean(items: seq<(Expr, string)>, groupBy: seq<Expr>, calls: seq<AggCall>, schema: Schema)
    ensures Clean(ProjectColumns(items, schema)) && Clean(GroupColumns(groupBy, schema)) && Clean(AggColumns(calls, schema))
    decreases |items| + |groupBy| + |calls|
  {
    hide ExprType, ExprName;
    if items != [] {
      TypeErrorsAreClean(items[0].0, schema);
      ColumnErrorsAreClean(items[1..], groupBy, calls, schema);
    }
    if groupBy != [] {
      TypeErrorsAreClean(groupBy[0], schema);
      ColumnErrorsAreClean(items, groupBy[1..], calls, schema);
    }
    if calls != [] {
      TypeErrorsAreClean(calls[0].arg, schema);
      ColumnErrorsAreClean(items, groupBy, calls[1..], schema);
    }
  }

  lemma {:induction false} SchemaErrorsAreClean(plan: LogicalPlan, catalog: CatalogMap)
    ensures Clean(PlanSchema(plan, catalog))
  {
    hide ProjectColumns, GroupColumns, AggColumns, Qualify;
    match plan
    case DummyScan =>
    case Scan(_, _) =>
    case Join(left, right, _) =>
      SchemaErrorsAreClean(left, catalog);
      SchemaErrorsAreClean(right, catalog);
    case Project(child, items) =>
      SchemaErrorsAreClean(child, catalog);
      if PlanSchema(child, catalog).Ok? {
        ColumnErrorsAreClean(items, [], [], PlanSchema(child, catalog).value);
      }
    case Agg(child, groupBy, calls) =>
      SchemaErrorsAreClean(child, catalog);
      if PlanSchema(child, catalog).Ok? {
        ColumnErrorsAreClean([], groupBy, calls, PlanSchema(child, catalog).value);
      }
    case _ =>
      SchemaErrorsAreClean(plan.child, catalog);
  }

  lemma {:induction false} BuildErrorsAreClean(plan: LogicalPlan, catalog: CatalogMap)
    ensures Clean(Buildable(plan, catalog))
  {
    hide PlanSchema;
    SchemaErrorsAreClean(plan, catalog);
    match plan
    case DummyScan =>
    case Scan(_, _) =>
    case Join(left, right, _) =>
      BuildErrorsAreClean(left, catalog);
      BuildErrorsAreClean(right, catalog);
    case _ =>
      BuildErrorsAreClean(plan.child, catalog);
      SchemaErrorsAreClean(plan.child, catalog);
  }

  /** Without a schema of its own a plan that can be built is a LIMIT, a projection, an aggregation or a
      scan; it still starts in bounds. */
  lemma {:induction false} StartsInBounds(plan: LogicalPlan, catalog: CatalogMap, ctx: ExecutionContext)
    requires StoredRowsFit(catalog, ctx.tables, false) && KnownAggregates(plan)
    requires Buildable(plan, catalog).Ok?
    ensures Denote(plan, catalog, ctx).Aborted? ==> InBounds(Denote(plan, catalog, ctx).error)
    decreases plan
  {
    hide StoredRowsFit, ScanStream, FilterOutcome, JoinOutcome, SortOutcome, ProjectStream, LimitStream, KeyRows, RowsFit;
    if PlanSchema(plan, catalog).Ok? {
      PlanFits(plan, catalog, ctx, false);
    } else {
      match plan
      case DummyScan =>
      case Scan(_, _) =>
      case Limit(child, _, _) =>
        StartsInBounds(child, catalog, ctx);
      case Project(child, _) =>
        PlanFits(child, catalog, ctx, false);
      case Agg(child, groupBy, calls) =>
        PlanFits(child, catalog, ctx, false);
        var schema := PlanSchema(child, catalog).value;
        if Denote(child, catalog, ctx).Started? {
          KeyRowsFit(Denote(child, catalog, ctx).stream.rows, groupBy, calls, schema, false);
        }
      case _ =>
    }
  }

  lemma OnlyWidths(catalog: CatalogMap, ctx: ExecutionContext, typed: bool)
    requires StoredRowsFit(catalog, ctx.tables, typed)
    ensures StoredRowsFit(catalog, ctx.tables, false)
  {
    forall t | t in catalog && t in ctx.tables ensures RowsFit(ctx.tables[t], catalog[t], false) {
      assert RowsFit(ctx.tables[t], catalog[t], typed);
    }
  }

  // Where the panics of divisions and sorts come from.

  predicate Divides(expr: Expr) {
    expr.BinaryOp? && (expr.op == "/" || Divides(expr.left) || Divides(expr.right))
  }

  predicate AnyDivides(exprs: seq<Expr>) {
    exists i :: 0 <= i < |exprs| && Divides(exprs[i])
  }

  function Args(calls: seq<AggCall>): (args: seq<Expr>)
    ensures |args| == |calls| && forall i | 0 <= i < |calls| :: args[i] == calls[i].arg
  {
    seq(|calls|, i requires 0 <= i < |calls| => calls[i].arg)
  }

  /** Some expression of the plan has a division. */
  predicate PlanDivides(plan: LogicalPlan) {
    match plan
    case DummyScan => false
    case Scan(_, _) => false
    case Filter(child, pred) => Divides(pred) || PlanDivides(child)
    case Project(child, items) => AnyDivides(Exprs(items)) || PlanDivides(child)
    case Limit(child, _, _) => PlanDivides(child)
    case Sort(child, orderBy) => AnyDivides(Exprs(orderBy)) || PlanDivides(child)
    case Join(left, right, cond) => (cond.Some? && Divides(cond.value)) || PlanDivides(left) || PlanDivides(right)
    case Agg(child, groupBy, calls) => AnyDivides(groupBy) || AnyDivides(Args(calls)) || PlanDivides(child)
  }

  /** Every ORDER BY of the plan sorts rows whose keys are comparable. */
  ghost predicate Orderly(plan: LogicalPlan, catalog: CatalogMap, ctx: ExecutionContext) {
    match plan
    case DummyScan => true
    case Scan(_, _) => true
    case Join(left, right, _) => Orderly(left, catalog, ctx) && Orderly(right, catalog, ctx)
    case Sort(child, orderBy) =>
      && Orderly(child, catalog, ctx)
      && (PlanSchema(child, catalog).Ok? && Denote(child, catalog, ctx).Started? ==>
            Sorting.AllComparable(Denote(child, catalog, ctx).stream.rows, orderBy, PlanSchema(child, catalog).value))
    case Filter(child, _) => Orderly(child, catalog, ctx)
    case Project(child, _) => Orderly(child, catalog, ctx)
    case Limit(child, _, _) => Orderly(child, catalog, ctx)
    case Agg(child, _, _) => Orderly(child, catalog, ctx)
  }

  predicate Sorts(plan: LogicalPlan) {
    match plan
    case DummyScan => false
    case Scan(_, _) => false
    case Join(left, right, _) => Sorts(left) || Sorts(right)
    case Sort(_, _) => true
    case Filter(child, _) => Sorts(child)
    case Project(child, _) => Sorts(child)
    case Limit(child, _, _) => Sorts(child)
    case Agg(child, _, _) => Sorts(child)
  }

  lemma {:induction false} UnsortedIsOrderly(plan: LogicalPlan, catalog: CatalogMap, ctx: ExecutionContext)
    requires !Sorts(plan)
    ensures Orderly(plan, catalog, ctx)
  {
    match plan
    case DummyScan =>
    case Scan(_, _) =>
    case Join(left, right, _) =>
      UnsortedIsOrderly(left, catalog, ctx);
      UnsortedIsOrderly(right, catalog, ctx);
    case Filter(child, _) => UnsortedIsOrderly(child, catalog, ctx);
    case Project(child, _) => UnsortedIsOrderly(child, catalog, ctx);
    case Limit(child, _, _) => UnsortedIsOrderly(child, catalog, ctx);
    case Agg(child, _, _) => UnsortedIsOrderly(child, catalog, ctx);
    case Sort(_, _) =>
  }

  /** Divisions overflow only where there are divisions, orders fail only where rows are not orderly. */
  predicate Allowed(e: Error, divides: bool, disorderly: bool) {
    && (e == PanicDivisionOverflow ==> divides)
    && (e == PanicSortOrder ==> disorderly)
  }

  predicate StreamAllowed(s: Stream, divides: bool, disorderly: bool) {
    s.end.Fail? ==> Allowed(s.end.error, divides, disorderly)
  }

  predicate OutcomeAllowed(o: Outcome, divides: bool, disorderly: bool) {
    if o.Aborted? then Allowed(o.error, divides, disorderly) else StreamAllowed(o.stream, divides, disorderly)
  }

  lemma {:induction false} EvalAllowed(expr: Expr, values: seq<Value>, schema: Schema, divides: bool, disorderly: bool)
    requires Divides(expr) ==> divides
    ensures var r := Eval(expr, values, schema); r.Err? ==> Allowed(r.error, divides, disorderly)
  {
    if expr.BinaryOp? {
      EvalAllowed(expr.left, values, schema, divides, disorderly);
      EvalAllowed(expr.right, values, schema, divides, disorderly);
    }
  }

  lemma EvalAllAllowed(exprs: seq<Expr>, values: seq<Value>, schema: Schema, divides: bool, disorderly: bool)
    requires AnyDivides(exprs) ==> divides
    ensures var r := EvalAll(exprs, values, schema); r.Err? ==> Allowed(r.error, divides, disorderly)
  {
    hide Eval, Divides, Allowed;
    var r := EvalAll(exprs, values, schema);
    if r.Err? {
      var i :| 0 <= i < |exprs| && Eval(exprs[i], values, schema) == Err(r.error);
      EvalAllowed(exprs[i], values, schema, divides, disorderly);
    }
  }

  lemma {:induction false} FilterAllowed(s: Stream, pred: Expr, schema: Schema, divides: bool, disorderly: bool)
    requires StreamAllowed(s, divides, disorderly) && (Divides(pred) ==> divides)
    ensures StreamAllowed(FilterStream(s, pred, schema), divides, disorderly)
    decreases |s.rows|
  {
    hide Eval, Divides, Allowed;
    if s.rows != [] {
      EvalAllowed(pred, s.rows[0].values, schema, divides, disorderly);
      FilterAllowed(s.Tail(), pred, schema, divides, disorderly);
    }
  }

  lemma {:induction false} ProjectAllowed(s: Stream, exprs: seq<Expr>, schema: Schema, divides: bool, disorderly: bool)
    requires StreamAllowed(s, divides, disorderly) && (AnyDivides(exprs) ==> divides)
    ensures StreamAllowed(ProjectStream(s, exprs, schema), divides, disorderly)
    decreases |s.rows|
  {
    hide EvalAll, AnyDivides, Allowed;
    if s.rows != [] {
      EvalAllAllowed(exprs, s.rows[0].values, schema, divides, disorderly);
      ProjectAllowed(s.Tail(), exprs, schema, divides, disorderly);
    }
  }

  lemma {:induction false} JoinFromAllowed(l: Tuple, rest: seq<Tuple>, left: Stream, right: seq<Tuple>, cond: Option<Expr>,
                                           schema: Schema, divides: bool, disorderly: bool)
    requires StreamAllowed(left, divides, disorderly) && (cond.Some? && Divides(cond.value) ==> divides)
    ensures StreamAllowed(JoinFrom(l, rest, left, right, cond, schema), divides, disorderly)
  {
    JoinFromIsFilteredProduct(l, rest, left, right, cond, schema);
    if cond.Some? {
      FilterAllowed(Stream(Pairs(l, rest) + Product(left.rows, right), left.end), cond.value, schema, divides, disorderly);
    }
  }

  lemma KeyRowAllowed(row: Tuple, groupBy: seq<Expr>, calls: seq<AggCall>, schema: Schema, divides: bool, disorderly: bool)
    requires (AnyDivides(groupBy) ==> divides) && (AnyDivides(Args(calls)) ==> divides)
    ensures var r := KeyRow(row, groupBy, calls, schema); r.Err? ==> Allowed(r.error, divides, disorderly)
  {
    hide Eval, Divides;
    EvalAllAllowed(groupBy, row.values, schema, divides, disorderly);
    var args := EvalArgs(calls, row.values, schema);
    if args.Err? {
      var i :| 0 <= i < |calls| && EvalArg(calls[i].arg, row.values, schema) == Err(args.error);
      assert Args(calls)[i] == calls[i].arg;
      EvalAllowed(calls[i].arg, row.values, schema, divides, disorderly);
    }
  }

  lemma {:induction false} KeyRowsAllowed(rows: seq<Tuple>, groupBy: seq<Expr>, calls: seq<AggCall>, schema: Schema, divides: bool, disorderly: bool)
    requires (AnyDivides(groupBy) ==> divides) && (AnyDivides(Args(calls)) ==> divides)
    ensures var r := KeyRows(rows, groupBy, calls, schema); r.Err? ==> Allowed(r.error, divides, disorderly)
  {
    hide KeyRow, AnyDivides, Allowed;
    if rows != [] {
      KeyRowAllowed(rows[0], groupBy, calls, schema, divides, disorderly);
      KeyRowsAllowed(rows[1..], groupBy, calls, schema, divides, disorderly);
    }
  }

  lemma SortAllowed(rows: seq<Tuple>, orderBy: seq<(Expr, bool)>, schema: Schema, divides: bool, disorderly: bool)
    requires AnyDivides(Exprs(orderBy)) ==> divides
    requires !Sorting.AllComparable(rows, orderBy, schema) ==> disorderly
    ensures var r := Sorting.LibrarySort(rows, orderBy, schema); r.Err? ==> Allowed(r.error, divides, disorderly)
  {
    hide Sorting.MustPanic, Sorting.AllComparable, Sorting.IsStableSort, Sorting.ComparePanic, Eval, Divides;
    Sorting.LibraryKeepsPromise(rows, orderBy, schema);
    var r := Sorting.LibrarySort(rows, orderBy, schema);
    if r.Err? && Sorting.MayPanic(rows, r.error, orderBy, schema) {
      var i, j :| 0 <= i < |rows| && 0 <= j < |rows| && i != j
                  && Sorting.ComparePanic(rows[i], rows[j], orderBy, schema) == Some(r.error);
      Sorting.ComparePanicIsFromKey(rows[i], rows[j], orderBy, schema);
      var k :| 0 <= k < |orderBy|
               && (Sorting.KeyPanic(rows[i], orderBy[k].0, schema) == Some(r.error)
                   || Sorting.KeyPanic(rows[j], orderBy[k].0, schema) == Some(r.error));
      assert Exprs(orderBy)[k] == orderBy[k].0;
      EvalAllowed(orderBy[k].0, rows[i].values, schema, divides, disorderly);
      EvalAllowed(orderBy[k].0, rows[j].values, schema, divides, disorderly);
    }
  }

  /** No hypothesis on what is stored: for every plan over any tables a division overflows only if the plan
      has a division, and a sort fails only if its rows are not comparable. */
  lemma {:induction false} DenoteAllowed(plan: LogicalPlan, catalog: CatalogMap, ctx: ExecutionContext, divides: bool, disorderly: bool)
    requires PlanDivides(plan) ==> divides
    requires !Orderly(plan, catalog, ctx) ==> disorderly
    ensures OutcomeAllowed(Denote(plan, catalog, ctx), divides, disorderly)
    decreases plan
  {
    hide PlanSchema, AnyDivides, Divides, FilterStream, ProjectStream, LimitStream, JoinFrom, KeyRows, GroupRows, Sorting.AllComparable;
    SchemaErrorsAreClean(plan, catalog);
    match plan
    case DummyScan =>
    case Scan(_, _) =>
    case Filter(child, pred) =>
      SchemaErrorsAreClean(child, catalog);
      DenoteAllowed(child, catalog, ctx, divides, disorderly);
      if PlanSchema(child, catalog).Ok? && Denote(child, catalog, ctx).Started? {
        FilterAllowed(Denote(child, catalog, ctx).stream, pred, PlanSchema(child, catalog).value, divides, disorderly);
      }
    case Project(child, items) =>
      SchemaErrorsAreClean(child, catalog);
      DenoteAllowed(child, catalog, ctx, divides, disorderly);
      if PlanSchema(child, catalog).Ok? && Denote(child, catalog, ctx).Started? {
        ProjectAllowed(Denote(child, catalog, ctx).stream, Exprs(items), PlanSchema(child, catalog).value, divides, disorderly);
      }
    case Limit(child, limit, offset) =>
      DenoteAllowed(child, catalog, ctx, divides, disorderly);
      if Denote(child, catalog, ctx).Started? {
        LimitIsSlice(Denote(child, catalog, ctx).stream, ValueOr(offset, 0), limit);
      }
    case Sort(child, orderBy) =>
      SchemaErrorsAreClean(child, catalog);
      DenoteAllowed(child, catalog, ctx, divides, disorderly);
      if PlanSchema(child, catalog).Ok? && Denote(child, catalog, ctx).Started? {
        SortAllowed(Denote(child, catalog, ctx).stream.rows, orderBy, PlanSchema(child, catalog).value, divides, disorderly);
      }
    case Join(left, right, cond) =>
      DenoteAllowed(left, catalog, ctx, divides, disorderly);
      DenoteAllowed(right, catalog, ctx, divides, disorderly);
      var l, r := Denote(left, catalog, ctx), Denote(right, catalog, ctx);
      if PlanSchema(plan, catalog).Ok? && l.Started? && r.Started? && l.stream.rows != [] {
        JoinFromAllowed(l.stream.rows[0], r.stream.rows, l.stream.Tail(), r.stream.rows, cond, PlanSchema(plan, catalog).value,
                        divides, disorderly);
      }
    case Agg(child, groupBy, calls) =>
      SchemaErrorsAreClean(child, catalog);
      DenoteAllowed(child, catalog, ctx, divides, disorderly);
      if PlanSchema(child, catalog).Ok? && Denote(child, catalog, ctx).Started? {
        KeyRowsAllowed(Denote(child, catalog, ctx).stream.rows, groupBy, calls, PlanSchema(child, catalog).value, divides, disorderly);
      }
  }

  // Answers.

  /** A query's error: no index out of bounds, no unknown aggregate, and every other panic has its reason. */
  ghost predicate Explained(e: Error, plan: LogicalPlan, catalog: CatalogMap, ctx: ExecutionContext) {
    InBounds(e) && Allowed(e, PlanDivides(plan), !Orderly(plan, catalog, ctx))
  }

  /** The answer to any query over fitting rows: explained errors, and rows that fit the answer's schema. */
  lemma ResultFits(plan: LogicalPlan, catalog: CatalogMap, ctx: ExecutionContext, typed: bool)
    requires StoredRowsFit(catalog, ctx.tables, typed) && KnownAggregates(plan)
    ensures var r := QueryResult(plan, catalog, ctx);
            if r.Err? then Explained(r.error, plan, catalog, ctx)
            else PlanSchema(plan, catalog) == Ok(r.value.schema) && RowsFit(r.value.rows, r.value.schema, typed)
  {
    hide Buildable, PlanSchema, Denote, KnownAggregates, Fits, PlanDivides, Orderly;
    OnlyWidths(catalog, ctx, typed);
    BuildErrorsAreClean(plan, catalog);
    SchemaErrorsAreClean(plan, catalog);
    DenoteAllowed(plan, catalog, ctx, PlanDivides(plan), !Orderly(plan, catalog, ctx));
    if Buildable(plan, catalog).Ok? {
      StartsInBounds(plan, catalog, ctx);
      if PlanSchema(plan, catalog).Ok? {
        PlanFits(plan, catalog, ctx, typed);
      }
    }
  }

  ghost predicate AnswerFits(r: Result<Response>, plan: LogicalPlan, catalog: CatalogMap, ctx: ExecutionContext, typed: bool) {
    if r.Err? then Explained(r.error, plan, catalog, ctx)
    else
      && r.value.Answer?
      && PlanSchema(plan, catalog) == Ok(r.value.result.schema)
      && RowsFit(r.value.result.rows, r.value.result.schema, typed)
  }

  /** After any harmless run, any number of crashes included, a query's error is explained, and each value
      of an answer stands in a column of its answer's schema; of its declared type, if the run was harmless
      to types too. */
  lemma AnswersFit(steps: seq<Step>, sid: nat, plan: LogicalPlan, order: HashOrder, typed: bool)
    requires HarmlessRun(steps, typed) && KnownAggregates(plan)
    ensures var w := Play(Fresh(), steps);
            AnswerFits(ResponseTo(w, Run(sid, Query(plan), order)), plan, w.db.catalog,
                       Reader(w.db, w.SessionOf(sid).current, order), typed)
  {
    hide Play, Fresh, QueryResult, PlanSchema, KnownAggregates, RowsFit, Explained;
    HarmlessRunFits(steps, typed);
    var w := Play(Fresh(), steps);
    QueryResponse(w, sid, plan, order);
    ResultFits(plan, w.db.catalog, Reader(w.db, w.SessionOf(sid).current, order), typed);
  }

  /** In a first generation a query without divisions and without ORDER BY never panics, whatever the
      statements before it. */
  lemma PlainQueriesNeverPanic(steps: seq<Step>, sid: nat, plan: LogicalPlan, order: HashOrder)
    requires NoCrash(steps) && KnownAggregates(plan) && !PlanDivides(plan) && !Sorts(plan)
    ensures var r := ResponseTo(Play(Fresh(), steps), Run(sid, Query(plan), order));
            r.Err? ==> !r.error.IsPanic()
  {
    hide Play, Fresh, ResponseTo, KnownAggregates, PlanDivides, Sorts, Orderly, HarmlessRun, PlanSchema, RowsFit;
    WidthsNeedNoCare(steps);
    var w := Play(Fresh(), steps);
    UnsortedIsOrderly(plan, w.db.catalog, Reader(w.db, w.SessionOf(sid).current, order));
    AnswersFit(steps, sid, plan, order, false);
  }

  // Exactly when.

  /** Some division that is reached divides the smallest integer by -1. */
  predicate DividesMin(expr: Expr, values: seq<Value>, schema: Schema) {
    expr.BinaryOp? &&
    (|| DividesMin(expr.left, values, schema)
     || (Eval(expr.left, values, schema).Ok? && DividesMin(expr.right, values, schema))
     || (expr.op == "/" && Eval(expr.left, values, schema) == Ok(Int(-TWO63)) && Eval(expr.right, values, schema) == Ok(Int(-1))))
  }

  /** An expression panics by overflow if and only if it reaches such a division. */
  lemma {:induction false} DivisionPanicsIff(expr: Expr, values: seq<Value>, schema: Schema)
    ensures Eval(expr, values, schema) == Err(PanicDivisionOverflow) <==> DividesMin(expr, values, schema)
  {
    if expr.BinaryOp? {
      DivisionPanicsIff(expr.left, values, schema);
      DivisionPanicsIff(expr.right, values, schema);
    }
  }

  /** Some item divides so, and the items before it evaluate. */
  ghost predicate RowDividesMin(exprs: seq<Expr>, values: seq<Value>, schema: Schema) {
    exists k :: 0 <= k < |exprs| && DividesMin(exprs[k], values, schema)
                && forall i | 0 <= i < k :: Eval(exprs[i], values, schema).Ok?
  }

  lemma {:induction false} ItemsPanicIff(exprs: seq<Expr>, values: seq<Value>, schema: Schema)
    ensures EvalAll(exprs, values, schema) == Err(PanicDivisionOverflow) <==> RowDividesMin(exprs, values, schema)
  {
    hide Eval, DividesMin;
    if exprs != [] {
      var rest := exprs[1..];
      DivisionPanicsIff(exprs[0], values, schema);
      ItemsPanicIff(rest, values, schema);
      if RowDividesMin(exprs, values, schema) {
        var k :| 0 <= k < |exprs| && DividesMin(exprs[k], values, schema)
                 && forall i | 0 <= i < k :: Eval(exprs[i], values, schema).Ok?;
        if k > 0 {
          assert rest[k - 1] == exprs[k];
          assert forall i | 0 <= i < k - 1 :: rest[i] == exprs[i + 1];
          assert Eval(exprs[0], values, schema).Ok?;
        }
      }
      if RowDividesMin(rest, values, schema) && Eval(exprs[0], values, schema).Ok? {
        var k :| 0 <= k < |rest| && DividesMin(rest[k], values, schema)
                 && forall i | 0 <= i < k :: Eval(rest[i], values, schema).Ok?;
        assert exprs[k + 1] == rest[k];
        assert forall i | 0 < i < k + 1 :: exprs[i] == rest[i - 1];
      }
    }
  }

  /** The first row with a failing item is row n, and it fails by overflow. */
  ghost predicate PanicsAtRow(s: Stream, n: nat, exprs: seq<Expr>, schema: Schema) {
    && n < |s.rows| && RowDividesMin(exprs, s.rows[n].values, schema)
    && forall i | 0 <= i < n :: EvalAll(exprs, s.rows[i].values, schema).Ok?
  }

  /** SELECT items panics by overflow if and only if some row divides the smallest integer by -1 while all
      rows before it evaluate, or all rows evaluate and the rows themselves end in that panic. */
  lemma ProjectPanicsIff(s: Stream, exprs: seq<Expr>, schema: Schema)
    ensures ProjectStream(s, exprs, schema).end == Fail(PanicDivisionOverflow) <==>
            (exists n: nat :: PanicsAtRow(s, n, exprs, schema))
            || (s.end == Fail(PanicDivisionOverflow) && forall i | 0 <= i < |s.rows| :: EvalAll(exprs, s.rows[i].values, schema).Ok?)
  {
    hide EvalAll, RowDividesMin, ProjectStream;
    var n := PlanLaws.FirstBadRow(s.rows, exprs, schema);
    ProjectMapsRows(s, n, exprs, schema);
    if n < |s.rows| {
      ItemsPanicIff(exprs, s.rows[n].values, schema);
      assert PanicsAtRow(s, n, exprs, schema) <==> RowDividesMin(exprs, s.rows[n].values, schema);
    }
    if m: nat :| PanicsAtRow(s, m, exprs, schema) {
      ItemsPanicIff(exprs, s.rows[m].values, schema);
      assert m == n;
    }
  }

  /** Row n is the first one on which the predicate fails, and it fails by overflow. */
  ghost predicate FailsAtRow(s: Stream, n: nat, pred: Expr, schema: Schema) {
    && n < |s.rows| && DividesMin(pred, s.rows[n].values, schema)
    && forall i | 0 <= i < n :: Eval(pred, s.rows[i].values, schema).Ok?
  }

  /** WHERE panics by overflow in the same way. */
  lemma FilterPanicsIff(s: Stream, pred: Expr, schema: Schema)
    ensures FilterStream(s, pred, schema).end == Fail(PanicDivisionOverflow) <==>
            (exists n: nat :: FailsAtRow(s, n, pred, schema))
            || (s.end == Fail(PanicDivisionOverflow) && forall i | 0 <= i < |s.rows| :: Eval(pred, s.rows[i].values, schema).Ok?)
  {
    hide Eval, DividesMin, FilterStream;
    var n := PlanLaws.FirstFailing(s.rows, pred, schema);
    FilterKeepsPassingRows(s, n, pred, schema);
    if n < |s.rows| {
      DivisionPanicsIff(pred, s.rows[n].values, schema);
      assert FailsAtRow(s, n, pred, schema) <==> DividesMin(pred, s.rows[n].values, schema);
    }
    if m: nat :| FailsAtRow(s, m, pred, schema) {
      DivisionPanicsIff(pred, s.rows[m].values, schema);
      assert m == n;
    }
  }

  /** Typed keys without NULL and NaN are comparable: such an ORDER BY is stable, sorted and never panics
      over the order. */
  lemma TypedKeysCompare(rows: seq<Tuple>, orderBy: seq<(Expr, bool)>, schema: Schema)
    requires RowsFit(rows, schema, true)
    requires forall k | 0 <= k < |orderBy| :: ExprType(orderBy[k].0, schema).Ok?
    requires forall i, k | 0 <= i < |rows| && 0 <= k < |orderBy| :: ProperKey(rows[i], orderBy[k].0, schema)
    ensures Sorting.AllComparable(rows, orderBy, schema)
  {
    hide Eval, ExprType, Fits;
    forall i, j, k | 0 <= i < |rows| && 0 <= j < |rows| && 0 <= k < |orderBy|
      ensures Sorting.SameKind(Sorting.SortKey(rows[i], orderBy[k].0, schema), Sorting.SortKey(rows[j], orderBy[k].0, schema))
    {
      assert ProperKey(rows[i], orderBy[k].0, schema) && ProperKey(rows[j], orderBy[k].0, schema);
      EvalFits(orderBy[k].0, rows[i].values, schema, true);
      EvalFits(orderBy[k].0, rows[j].values, schema, true);
    }
  }

  predicate ProperKey(row: Tuple, expr: Expr, schema: Schema) {
    match Eval(expr, row.values, schema)
    case Ok(v) => !v.Null? && (v.Float? ==> IEEE754.rank(v.f).Some?)
    case Err(_) => false
  }
}
