/** What whole plans deliver, operator by operator: each law is about the meaning of a plan and that of its
    children, in terms of rows, expressions and values only. */
module PlanLaws {
  import opened Wrappers
  import opened Storage
  import opened Catalog
  import opened Planner
  import opened Transactions
  import opened Sequences
  import opened Aggregation
  import opened GroupKey
  import opened ExprLaws
  import opened Meaning
  import opened MeaningLaws

  ghost predicate Delivers(plan: LogicalPlan, catalog: CatalogMap, ctx: ExecutionContext, rows: seq<Tuple>, end: End) {
    Denote(plan, catalog, ctx) == Started(Stream(rows, end))
  }

  ghost predicate FailsToStart(plan: LogicalPlan, catalog: CatalogMap, ctx: ExecutionContext, e: Error) {
    Denote(plan, catalog, ctx) == Aborted(e)
  }

  /** A row that belongs to no transaction. */
  function Unstamped(values: seq<Value>): Tuple {
    Tuple(values, None, 0)
  }

  // Leaves.

  lemma {:induction false} VisibleRowsAreSelected(ctx: ExecutionContext, rows: seq<Tuple>)
    ensures ctx.VisibleRows(rows) == Select(rows, (row: Tuple) => IsVisible(ctx.vis, row.txId, ctx.sessionTx, ctx.crScn))
  {
    hide IsVisible;
    if rows != [] {
      VisibleRowsAreSelected(ctx, rows[1..]);
    }
  }

  /** A scan delivers the visible rows of its table in storage order; a query without a table has one
      row without columns. */
  lemma LeavesDeliver(table: string, alias: Option<string>, catalog: CatalogMap, ctx: ExecutionContext)
    ensures Delivers(DummyScan, catalog, ctx, [Unstamped([])], Done)
    ensures table in ctx.tables ==>
              Delivers(Scan(table, alias), catalog, ctx,
                       Select(ctx.tables[table], (row: Tuple) => IsVisible(ctx.vis, row.txId, ctx.sessionTx, ctx.crScn)), Done)
    ensures table !in ctx.tables ==> Delivers(Scan(table, alias), catalog, ctx, [], Fail(TableNotInStorage(table)))
  {
    if table in ctx.tables {
      assert ctx.tables[table][0..] == ctx.tables[table];
      VisibleRowsAreSelected(ctx, ctx.tables[table]);
    }
  }

  // Filter and projection.

  /** The rows of a prefix on which the predicate is true. */
  function TrueRows(rows: seq<Tuple>, pred: Expr, schema: Schema): seq<Tuple> {
    if rows == [] then []
    else
      TrueRows(rows[..|rows| - 1], pred, schema) +
      match Eval(pred, rows[|rows| - 1].values, schema)
      case Ok(v) => if True(v) then [rows[|rows| - 1]] else []
      case Err(_) => []
  }

  lemma {:induction false} KeepConcat(a: seq<Tuple>, b: seq<Tuple>, pred: Expr, schema: Schema)
    ensures Keep(a + b, pred, schema) == Keep(a, pred, schema) + Keep(b, pred, schema)
  {
    hide Passes;
    if a == [] {
      assert a + b == b;
    } else {
      KeepConcat(a[1..], b, pred, schema);
      assert (a + b)[1..] == a[1..] + b;
      var head := if Passes(a[0], pred, schema) then [a[0]] else [];
      assert head + (Keep(a[1..], pred, schema) + Keep(b, pred, schema)) == (head + Keep(a[1..], pred, schema)) + Keep(b, pred, schema);
    }
  }

  lemma {:induction false} KeepsTrueRows(rows: seq<Tuple>, pred: Expr, schema: Schema)
    ensures Keep(rows, pred, schema) == TrueRows(rows, pred, schema)
  {
    hide Eval;
    if rows != [] {
      var n := |rows| - 1;
      KeepsTrueRows(rows[..n], pred, schema);
      KeepConcat(rows[..n], [rows[n]], pred, schema);
      assert rows == rows[..n] + [rows[n]];
      assert [rows[n]][1..] == [];
      if Eval(pred, rows[n].values, schema).Ok? {
        TruthTables(Eval(pred, rows[n].values, schema).value, Null);
      }
    }
  }

  /** WHERE keeps, in order, the rows on which its predicate is true, up to the first row on which it fails;
      then it ends as that evaluation, or as its child. */
  lemma FilterDelivers(child: LogicalPlan, pred: Expr, catalog: CatalogMap, ctx: ExecutionContext,
                       schema: Schema, rows: seq<Tuple>, end: End, n: nat)
    requires PlanSchema(child, catalog) == Ok(schema) && Delivers(child, catalog, ctx, rows, end)
    requires n <= |rows| && forall i | 0 <= i < n :: Eval(pred, rows[i].values, schema).Ok?
    requires n < |rows| ==> Eval(pred, rows[n].values, schema).Err?
    ensures Delivers(Filter(child, pred), catalog, ctx, TrueRows(rows[..n], pred, schema),
                     if n < |rows| then Fail(Eval(pred, rows[n].values, schema).error) else end)
  {
    hide Eval, Denote, PlanSchema, FilterStream;
    DenoteUnfolds(Filter(child, pred), catalog, ctx);
    FilterKeepsPassingRows(Stream(rows, end), n, pred, schema);
    KeepsTrueRows(rows[..n], pred, schema);
  }

  ghost predicate Evaluates(exprs: seq<Expr>, row: Tuple, schema: Schema, values: seq<Value>) {
    |values| == |exprs| && forall k | 0 <= k < |exprs| :: Eval(exprs[k], row.values, schema) == Ok(values[k])
  }

  /** The items of a row fail at item k. */
  ghost predicate FailsAt(exprs: seq<Expr>, row: Tuple, schema: Schema, k: nat, e: Error) {
    && k < |exprs| && Eval(exprs[k], row.values, schema) == Err(e)
    && forall i | 0 <= i < k :: Eval(exprs[i], row.values, schema).Ok?
  }

  lemma {:induction false} EvalAllIff(exprs: seq<Expr>, row: Tuple, schema: Schema)
    ensures forall values :: EvalAll(exprs, row.values, schema) == Ok(values) <==> Evaluates(exprs, row, schema, values)
    ensures forall e :: EvalAll(exprs, row.values, schema) == Err(e) <==> exists k: nat :: FailsAt(exprs, row, schema, k, e)
  {
    hide Eval;
    var r := EvalAll(exprs, row.values, schema);
    forall values ensures r == Ok(values) <==> Evaluates(exprs, row, schema, values) {
      if Evaluates(exprs, row, schema, values) {
        EvaluatesAll(exprs, row, schema, values);
      }
    }
    if r.Err? {
      var k := FirstBad(exprs, row, schema);
      FirstFailureDecides(exprs, row.values, schema, k);
      assert FailsAt(exprs, row, schema, k, r.error);
    }
    forall e, k: nat | FailsAt(exprs, row, schema, k, e) ensures r == Err(e) {
      FirstFailureDecides(exprs, row.values, schema, k);
    }
  }

  lemma {:induction false} EvaluatesAll(exprs: seq<Expr>, row: Tuple, schema: Schema, values: seq<Value>)
    requires Evaluates(exprs, row, schema, values)
    ensures EvalAll(exprs, row.values, schema) == Ok(values)
  {
    hide Eval;
    if exprs != [] {
      EvaluatesAll(exprs[1..], row, schema, values[1..]);
      assert [values[0]] + values[1..] == values;
    }
  }

  lemma FirstBad(exprs: seq<Expr>, row: Tuple, schema: Schema) returns (k: nat)
    requires EvalAll(exprs, row.values, schema).Err?
    ensures k < |exprs| && Eval(exprs[k], row.values, schema).Err?
    ensures forall i | 0 <= i < k :: Eval(exprs[i], row.values, schema).Ok?
  {
    hide Eval;
    var bad :| 0 <= bad < |exprs| && Eval(exprs[bad], row.values, schema).Err?;
    k := 0;
    while Eval(exprs[k], row.values, schema).Ok?
      invariant k <= bad && forall i | 0 <= i < k :: Eval(exprs[i], row.values, schema).Ok?
      decreases bad - k
    {
      k := k + 1;
    }
  }

  ghost predicate Projects(out: seq<Tuple>, rows: seq<Tuple>, exprs: seq<Expr>, schema: Schema) {
    |out| <= |rows| && forall i | 0 <= i < |out| :: Evaluates(exprs, rows[i], schema, out[i].values) && out[i] == Unstamped(out[i].values)
  }

  /** A projection delivers, row by row, the values of its items, up to the first row with an item that
      fails; it then ends as the first such item, or as its child. */
  lemma ProjectDelivers(child: LogicalPlan, items: seq<(Expr, string)>, catalog: CatalogMap, ctx: ExecutionContext,
                        schema: Schema, rows: seq<Tuple>, end: End) returns (out: seq<Tuple>, last: End)
    requires PlanSchema(child, catalog) == Ok(schema) && Delivers(child, catalog, ctx, rows, end)
    ensures Delivers(Project(child, items), catalog, ctx, out, last)
    ensures Projects(out, rows, Exprs(items), schema)
    ensures |out| == |rows| ==> last == end
    ensures |out| < |rows| ==> last.Fail? && exists k: nat :: FailsAt(Exprs(items), rows[|out|], schema, k, last.error)
  {
    hide Eval, EvalAll, Denote, PlanSchema, ProjectStream;
    var exprs := Exprs(items);
    DenoteUnfolds(Project(child, items), catalog, ctx);
    var n := FirstBadRow(rows, exprs, schema);
    ProjectMapsRows(Stream(rows, end), n, exprs, schema);
    var s := ProjectStream(Stream(rows, end), exprs, schema);
    out, last := s.rows, s.end;
    forall i | 0 <= i < n ensures Evaluates(exprs, rows[i], schema, out[i].values) {
      EvalAllIff(exprs, rows[i], schema);
    }
    if n < |rows| {
      EvalAllIff(exprs, rows[n], schema);
    }
  }

  lemma FirstBadRow(rows: seq<Tuple>, exprs: seq<Expr>, schema: Schema) returns (n: nat)
    ensures n <= |rows| && (forall i | 0 <= i < n :: EvalAll(exprs, rows[i].values, schema).Ok?)
    ensures n < |rows| ==> EvalAll(exprs, rows[n].values, schema).Err?
  {
    hide EvalAll;
    n := 0;
    while n < |rows| && EvalAll(exprs, rows[n].values, schema).Ok?
      invariant n <= |rows| && forall i | 0 <= i < n :: EvalAll(exprs, rows[i].values, schema).Ok?
    {
      n := n + 1;
    }
  }

  // LIMIT.

  /** OFFSET and LIMIT deliver the rows from the offset on, at most as many as the limit says; the end of the
      child shows only if the limit is not reached before. */
  lemma LimitDelivers(child: LogicalPlan, limit: Option<nat>, offset: Option<nat>, catalog: CatalogMap, ctx: ExecutionContext,
                      rows: seq<Tuple>, end: End)
    requires Delivers(child, catalog, ctx, rows, end)
    ensures var skip := if offset.Some? then offset.value else 0;
            if limit.Some? && skip + limit.value <= |rows| then
              Delivers(Limit(child, limit, offset), catalog, ctx, rows[skip..skip + limit.value], Done)
            else Delivers(Limit(child, limit, offset), catalog, ctx, if skip <= |rows| then rows[skip..] else [], end)
  {
    hide Denote, LimitStream;
    var skip := if offset.Some? then offset.value else 0;
    DenoteUnfolds(Limit(child, limit, offset), catalog, ctx);
    LimitIsSlice(Stream(rows, end), skip, limit);
    assert limit.Some? && skip + limit.value <= |rows| ==> rows[skip..][..limit.value] == rows[skip..skip + limit.value];
  }

  // Joins.

  /** The pairs on which the condition holds, up to the first pair on which it fails to evaluate. */
  ghost predicate JoinsTo(pairs: seq<Tuple>, end: End, cond: Option<Expr>, schema: Schema, out: seq<Tuple>, last: End) {
    match cond
    case None => out == pairs && last == end
    case Some(c) =>
      exists n: nat ::
        && n <= |pairs| && (forall i | 0 <= i < n :: Eval(c, pairs[i].values, schema).Ok?)
        && out == TrueRows(pairs[..n], c, schema)
        && if n < |pairs| then Eval(c, pairs[n].values, schema).Err? && last == Fail(Eval(c, pairs[n].values, schema).error)
           else last == end
  }

  /** All pairs of a left and a right row, left row by left row: pair (i, j) stands at place i * |right| + j
      and has the values of row i, then those of row j. */
  ghost predicate AllPairs(left: seq<Tuple>, right: seq<Tuple>, pairs: seq<Tuple>) {
    && |pairs| == |left| * |right|
    && forall i, j | 0 <= i < |left| && 0 <= j < |right| :: PairAt(left, right, pairs, i, j)
  }

  ghost predicate PairAt(left: seq<Tuple>, right: seq<Tuple>, pairs: seq<Tuple>, i: nat, j: nat)
    requires i < |left| && j < |right|
  {
    var k := i * |right| + j;
    k < |pairs| && pairs[k] == Unstamped(left[i].values + right[j].values)
  }

  lemma ProductHasAllPairs(left: seq<Tuple>, right: seq<Tuple>)
    ensures AllPairs(left, right, Product(left, right))
  {
    hide Product;
    ProductSize(left, right);
    forall i, j | 0 <= i < |left| && 0 <= j < |right| ensures PairAt(left, right, Product(left, right), i, j) {
      ProductAt(left, right, i, j);
    }
  }

  lemma FilteredPairs(pairs: seq<Tuple>, end: End, cond: Option<Expr>, schema: Schema)
    ensures var s := MaybeFilter(Stream(pairs, end), cond, schema); JoinsTo(pairs, end, cond, schema, s.rows, s.end)
  {
    hide Eval, FilterStream;
    if cond.Some? {
      var n := FirstFailing(pairs, cond.value, schema);
      FilterKeepsPassingRows(Stream(pairs, end), n, cond.value, schema);
      KeepsTrueRows(pairs[..n], cond.value, schema);
    }
  }

  lemma FirstFailing(rows: seq<Tuple>, pred: Expr, schema: Schema) returns (n: nat)
    ensures n <= |rows| && (forall i | 0 <= i < n :: Eval(pred, rows[i].values, schema).Ok?)
    ensures n < |rows| ==> Eval(pred, rows[n].values, schema).Err?
  {
    hide Eval;
    n := 0;
    while n < |rows| && Eval(pred, rows[n].values, schema).Ok?
      invariant n <= |rows| && forall i | 0 <= i < n :: Eval(pred, rows[i].values, schema).Ok?
    {
      n := n + 1;
    }
  }

  /** A join of two sides that start, the right one of which can be read to its end: all pairs, left row by
      left row, filtered by the condition. A side that fails to start, a right side that fails, or a left
      side that fails before its first row, in this order, keeps the join from starting. */
  lemma JoinDelivers(left: LogicalPlan, right: LogicalPlan, cond: Option<Expr>, catalog: CatalogMap, ctx: ExecutionContext,
                     schema: Schema, l: seq<Tuple>, lEnd: End, r: seq<Tuple>, rEnd: End)
    returns (pairs: seq<Tuple>, out: seq<Tuple>, last: End)
    requires PlanSchema(Join(left, right, cond), catalog) == Ok(schema)
    requires Delivers(left, catalog, ctx, l, lEnd) && Delivers(right, catalog, ctx, r, rEnd)
    ensures rEnd == Done && (l != [] || lEnd == Done) ==>
              && AllPairs(l, r, pairs) && JoinsTo(pairs, lEnd, cond, schema, out, last)
              && Delivers(Join(left, right, cond), catalog, ctx, out, last)
    ensures rEnd.Fail? ==> FailsToStart(Join(left, right, cond), catalog, ctx, rEnd.error)
    ensures rEnd == Done && l == [] && lEnd.Fail? ==> FailsToStart(Join(left, right, cond), catalog, ctx, lEnd.error)
  {
    hide Denote, PlanSchema, JoinStream, MaybeFilter, Product, JoinsTo, AllPairs;
    DenoteUnfolds(Join(left, right, cond), catalog, ctx);
    pairs := Product(l, r);
    ProductHasAllPairs(l, r);
    JoinIsFilteredProduct(Stream(l, lEnd), r, cond, schema);
    var s := MaybeFilter(Stream(pairs, lEnd), cond, schema);
    FilteredPairs(pairs, lEnd, cond, schema);
    out, last := s.rows, s.end;
  }

  lemma JoinFailsToStart(left: LogicalPlan, right: LogicalPlan, cond: Option<Expr>, catalog: CatalogMap, ctx: ExecutionContext,
                         schema: Schema, e: Error, l: seq<Tuple>, lEnd: End)
    requires PlanSchema(Join(left, right, cond), catalog) == Ok(schema)
    ensures FailsToStart(left, catalog, ctx, e) ==> FailsToStart(Join(left, right, cond), catalog, ctx, e)
    ensures Delivers(left, catalog, ctx, l, lEnd) && FailsToStart(right, catalog, ctx, e) ==>
              FailsToStart(Join(left, right, cond), catalog, ctx, e)
  {
    hide Denote, PlanSchema, JoinStream;
    DenoteUnfolds(Join(left, right, cond), catalog, ctx);
  }

  /** Every other operator fails to start exactly as its child does, when the child does. */
  lemma UnaryFailsToStart(child: LogicalPlan, catalog: CatalogMap, ctx: ExecutionContext, e: Error, pred: Expr,
                          items: seq<(Expr, string)>, limit: Option<nat>, offset: Option<nat>, orderBy: seq<(Expr, bool)>,
                          groupBy: seq<Expr>, calls: seq<AggCall>)
    requires PlanSchema(child, catalog).Ok? && FailsToStart(child, catalog, ctx, e)
    ensures FailsToStart(Filter(child, pred), catalog, ctx, e) && FailsToStart(Project(child, items), catalog, ctx, e)
    ensures FailsToStart(Limit(child, limit, offset), catalog, ctx, e) && FailsToStart(Sort(child, orderBy), catalog, ctx, e)
    ensures FailsToStart(Agg(child, groupBy, calls), catalog, ctx, e)
  {
    hide Denote, PlanSchema;
    DenoteUnfolds(Filter(child, pred), catalog, ctx);
    DenoteUnfolds(Project(child, items), catalog, ctx);
    DenoteUnfolds(Limit(child, limit, offset), catalog, ctx);
    DenoteUnfolds(Sort(child, orderBy), catalog, ctx);
    DenoteUnfolds(Agg(child, groupBy, calls), catalog, ctx);
  }
}
