/** Soundness of plan schemas: what a plan delivers has the schema's width and types, so no operator
    ever reads a column that is not there. */
module Typing {
  import opened Wrappers
  import opened Storage
  import opened Catalog
  import opened Planner
  import opened Aggregation
  import opened Meaning
  import opened Grouping
  import AggregateLaws
  import Sorting

  predicate HasType(v: Value, t: DataType) {
    match v
    case Null => true
    case Int(_) => t == IntType
    case Float(_) => t == FloatType
    case Varchar(_) => t == VarcharType
    case Bool(_) => t == BoolType
  }

  /** Width, and types too when `typed`: INSERT enforces the width of a row but not its types. */
  predicate Fits(values: seq<Value>, schema: Schema, typed: bool) {
    && |values| == |schema.columns|
    && (typed ==> forall i | 0 <= i < |values| :: HasType(values[i], schema.columns[i].dataType))
  }

  predicate RowsFit(rows: seq<Tuple>, schema: Schema, typed: bool) {
    forall i | 0 <= i < |rows| :: Fits(rows[i].values, schema, typed)
  }

  ghost predicate StoredRowsFit(catalog: CatalogMap, tables: map<string, seq<Tuple>>, typed: bool) {
    forall t | t in catalog && t in tables :: RowsFit(tables[t], catalog[t], typed)
  }

  predicate InBounds(e: Error) {
    !e.PanicIndexOutOfBounds? && !e.PanicUnknownAggregate?
  }

  predicate StreamFits(s: Stream, schema: Schema, typed: bool) {
    RowsFit(s.rows, schema, typed) && (s.end.Fail? ==> InBounds(s.end.error))
  }

  predicate OutcomeFits(o: Outcome, schema: Schema, typed: bool) {
    match o
    case Aborted(e) => InBounds(e)
    case Started(s) => StreamFits(s, schema, typed)
  }

  // Expressions.

  lemma {:induction false} EvalFits(expr: Expr, values: seq<Value>, schema: Schema, typed: bool)
    requires Fits(values, schema, typed)
    ensures Eval(expr, values, schema).Err? ==> InBounds(Eval(expr, values, schema).error)
    ensures typed && Eval(expr, values, schema).Ok? && ExprType(expr, schema).Ok? ==>
              HasType(Eval(expr, values, schema).value, ExprType(expr, schema).value)
  {
    if expr.BinaryOp? {
      EvalFits(expr.left, values, schema, typed);
      EvalFits(expr.right, values, schema, typed);
      var l, r := Eval(expr.left, values, schema), Eval(expr.right, values, schema);
      if l.Ok? && r.Ok? {
        OperatorFits(expr.op, l.value, r.value);
      }
    }
  }

  /** What an operator returns, given the types of its operands. */
  lemma OperatorFits(op: string, l: Value, r: Value)
    ensures var v := EvalBinaryOp(op, l, r);
            && (v.Err? ==> InBounds(v.error))
            && (v.Ok? && (IsComparison(op) || op == "and" || op == "or") ==> v.value.Bool?)
            && (v.Ok? && IsArithmetic(op) ==>
                  if l.Int? && r.Int? then v.value.Int?
                  else v.value.Float? && !l.Null? && !r.Null? && (l.Float? || r.Float?))
  {
    hide FloatOp;
  }

  lemma {:induction false} EvalAllFits(exprs: seq<Expr>, values: seq<Value>, schema: Schema, typed: bool)
    requires Fits(values, schema, typed)
    ensures var r := EvalAll(exprs, values, schema);
            && (r.Err? ==> InBounds(r.error))
            && (r.Ok? && typed ==>
                  forall i | 0 <= i < |exprs| && ExprType(exprs[i], schema).Ok? ::
                    HasType(r.value[i], ExprType(exprs[i], schema).value))
  {
    hide Eval, ExprType;
    var r := EvalAll(exprs, values, schema);
    if r.Err? {
      var i :| 0 <= i < |exprs| && Eval(exprs[i], values, schema) == Err(r.error);
      EvalFits(exprs[i], values, schema, typed);
    } else {
      forall i | 0 <= i < |exprs| && typed && ExprType(exprs[i], schema).Ok?
        ensures HasType(r.value[i], ExprType(exprs[i], schema).value)
      {
        assert Eval(exprs[i], values, schema) == Ok(r.value[i]);
        EvalFits(exprs[i], values, schema, typed);
      }
    }
  }

  // Row streams.

  lemma {:induction false} FilterFits(s: Stream, pred: Expr, schema: Schema, typed: bool)
    requires StreamFits(s, schema, typed)
    ensures StreamFits(FilterStream(s, pred, schema), schema, typed)
    decreases |s.rows|
  {
    hide Eval, Fits;
    if s.rows != [] {
      EvalFits(pred, s.rows[0].values, schema, typed);
      FilterFits(s.Tail(), pred, schema, typed);
    }
  }

  lemma {:induction false} LimitFits(s: Stream, skip: nat, take: Option<nat>, schema: Schema, typed: bool)
    requires StreamFits(s, schema, typed)
    ensures StreamFits(LimitStream(s, skip, take), schema, typed)
    decreases |s.rows|
  {
    hide Fits;
    if s.rows != [] {
      if skip > 0 {
        LimitFits(s.Tail(), skip - 1, take, schema, typed);
      } else if take != Some(0) {
        LimitFits(s.Tail(), 0, if take.Some? then Some(take.value - 1) else None, schema, typed);
      }
    }
  }

  lemma ProjectedRowFits(values: seq<Value>, items: seq<(Expr, string)>, schema: Schema, out: seq<Column>, typed: bool)
    requires Fits(values, schema, typed) && ProjectColumns(items, schema) == Ok(out)
    ensures var r := EvalAll(Exprs(items), values, schema);
            (r.Err? ==> InBounds(r.error)) && (r.Ok? ==> Fits(r.value, Schema(out), typed))
  {
    hide ExprType, HasType;
    EvalAllFits(Exprs(items), values, schema, typed);
    assert forall i | 0 <= i < |items| :: ExprType(items[i].0, schema) == Ok(out[i].dataType);
  }

  lemma {:induction false} ProjectFits(s: Stream, items: seq<(Expr, string)>, schema: Schema, out: seq<Column>, typed: bool)
    requires StreamFits(s, schema, typed) && ProjectColumns(items, schema) == Ok(out)
    ensures StreamFits(ProjectStream(s, Exprs(items), schema), Schema(out), typed)
    decreases |s.rows|
  {
    hide Fits, EvalAll, ProjectColumns;
    if s.rows != [] {
      ProjectedRowFits(s.rows[0].values, items, schema, out, typed);
      ProjectFits(s.Tail(), items, schema, out, typed);
    }
  }

  lemma {:induction false} JoinFromFits(l: Tuple, rest: seq<Tuple>, left: Stream, right: seq<Tuple>, cond: Option<Expr>,
                                        ls: Schema, rs: Schema, typed: bool)
    requires Fits(l.values, ls, typed) && RowsFit(rest, rs, typed)
    requires StreamFits(left, ls, typed) && RowsFit(right, rs, typed)
    ensures var both := Schema(ls.columns + rs.columns);
            StreamFits(JoinFrom(l, rest, left, right, cond, both), both, typed)
    decreases |left.rows|, |rest|
  {
    var both := Schema(ls.columns + rs.columns);
    if rest == [] {
      hide Fits;
      if left.rows != [] {
        JoinFromFits(left.rows[0], right, left.Tail(), right, cond, ls, rs, typed);
      }
    } else {
      var row := Combine(l, rest[0]);
      assert Fits(row.values, both, typed);
      hide Fits;
      if cond.Some? {
        EvalFits(cond.value, row.values, both, typed);
      }
      hide Eval;
      JoinFromFits(l, rest[1..], left, right, cond, ls, rs, typed);
    }
  }

  lemma KeyPanicInBounds(row: Tuple, expr: Expr, schema: Schema, typed: bool)
    requires Fits(row.values, schema, typed)
    ensures Sorting.KeyPanic(row, expr, schema).Some? ==> InBounds(Sorting.KeyPanic(row, expr, schema).value)
  {
    EvalFits(expr, row.values, schema, typed);
  }

  /** No sort key over fitting rows is evaluated out of bounds. */
  lemma SortFits(rows: seq<Tuple>, orderBy: seq<(Expr, bool)>, schema: Schema, typed: bool)
    requires RowsFit(rows, schema, typed)
    ensures match Sorting.LibrarySort(rows, orderBy, schema)
            case Ok(out) => RowsFit(out, schema, typed)
            case Err(e) => InBounds(e)
  {
    hide Fits, Sorting.MustPanic, Sorting.AllComparable, Sorting.IsStableSort, Sorting.KeyPanic, Sorting.ComparePanic;
    Sorting.LibraryKeepsPromise(rows, orderBy, schema);
    match Sorting.LibrarySort(rows, orderBy, schema)
    case Ok(out) =>
      Sorting.SameBag(out, rows);
      forall i | 0 <= i < |out| ensures Fits(out[i].values, schema, typed) {
        assert out[i] in rows;
      }
    case Err(e) =>
      if Sorting.MayPanic(rows, e, orderBy, schema) {
        var i, j :| 0 <= i < |rows| && 0 <= j < |rows| && i != j
                    && Sorting.ComparePanic(rows[i], rows[j], orderBy, schema) == Some(e);
        Sorting.ComparePanicIsFromKey(rows[i], rows[j], orderBy, schema);
        var k :| 0 <= k < |orderBy|
                 && (Sorting.KeyPanic(rows[i], orderBy[k].0, schema) == Some(e)
                     || Sorting.KeyPanic(rows[j], orderBy[k].0, schema) == Some(e));
        KeyPanicInBounds(rows[i], orderBy[k].0, schema, typed);
        KeyPanicInBounds(rows[j], orderBy[k].0, schema, typed);
      }
  }

  lemma {:induction false} ScanFits(ctx: ExecutionContext, rows: seq<Tuple>, schema: Schema, typed: bool)
    requires RowsFit(rows, schema, typed)
    ensures RowsFit(ctx.VisibleRows(rows), schema, typed)
  {
    hide Fits, ExecutionContext.Sees;
    if rows != [] {
      ScanFits(ctx, rows[1..], schema, typed);
    }
  }

  // Aggregates.

  predicate AllHaveType(vals: seq<Value>, t: DataType) {
    forall i | 0 <= i < |vals| :: HasType(vals[i], t)
  }

  predicate StateHasType(state: AggState, t: DataType) {
    match state
    case CountState(_) => true
    case SumState(sum) => HasType(sum, t)
    case AvgState(sum, _) => HasType(sum, t)
    case MinState(min) => HasType(min, t)
    case MaxState(max) => HasType(max, t)
  }

  lemma UpdateHasType(state: AggState, val: Value, t: DataType)
    requires StateHasType(state, t) && HasType(val, t)
    requires state.SumState? || state.AvgState? ==> t == IntType || t == FloatType
    ensures StateHasType(state.Update(val), t)
  {
  }

  predicate SameState(a: AggState, b: AggState) {
    match a
    case CountState(_) => b.CountState?
    case SumState(_) => b.SumState?
    case AvgState(_, _) => b.AvgState?
    case MinState(_) => b.MinState?
    case MaxState(_) => b.MaxState?
  }

  lemma {:induction false} FoldHasType(start: AggState, vals: seq<Value>, t: DataType)
    requires StateHasType(start, t) && AllHaveType(vals, t)
    requires start.SumState? || start.AvgState? ==> t == IntType || t == FloatType
    ensures StateHasType(Fold(start, vals), t) && SameState(start, Fold(start, vals))
  {
    if vals != [] {
      FoldHasType(start, vals[..|vals| - 1], t);
      UpdateHasType(Fold(start, vals[..|vals| - 1]), vals[|vals| - 1], t);
    }
  }

  /** The value of an aggregate has the aggregate's type when its arguments have theirs. */
  lemma AggregateHasType(call: AggCall, vals: seq<Value>, schema: Schema)
    requires AggType(call.func, call.arg, schema).Ok?
    requires ExprType(call.arg, schema).Ok? ==> AllHaveType(vals, ExprType(call.arg, schema).value)
    ensures IsAggregateName(call.func)
    ensures HasType(Aggregate(call.func, vals), AggType(call.func, call.arg, schema).value)
  {
    hide ExprType;
    if call.func == "count" {
      AggregateLaws.CountKeepsState(vals);
    } else {
      FoldHasType(StartState(call.func), vals, ExprType(call.arg, schema).value);
    }
  }

  predicate KeyedFits(k: KeyedRow, groupBy: seq<Expr>, calls: seq<AggCall>, schema: Schema, typed: bool) {
    && |k.groupVals| == |groupBy| && |k.args| == |calls|
    && (typed ==>
          && (forall i | 0 <= i < |groupBy| && ExprType(groupBy[i], schema).Ok? ::
                HasType(k.groupVals[i], ExprType(groupBy[i], schema).value))
          && (forall i | 0 <= i < |calls| && ExprType(calls[i].arg, schema).Ok? ::
                HasType(k.args[i], ExprType(calls[i].arg, schema).value)))
  }

  lemma KeyRowFits(row: Tuple, groupBy: seq<Expr>, calls: seq<AggCall>, schema: Schema, typed: bool)
    requires Fits(row.values, schema, typed) && KnownCalls(calls)
    ensures var r := KeyRow(row, groupBy, calls, schema);
            (r.Err? ==> InBounds(r.error)) && (r.Ok? ==> KeyedFits(r.value, groupBy, calls, schema, typed))
  {
    hide Eval, Fits, HasType;
    EvalAllFits(groupBy, row.values, schema, typed);
    var args := EvalArgs(calls, row.values, schema);
    if args.Err? {
      var i :| 0 <= i < |calls| && EvalArg(calls[i].arg, row.values, schema) == Err(args.error);
      EvalFits(calls[i].arg, row.values, schema, typed);
    } else {
      forall i | 0 <= i < |calls| && typed && ExprType(calls[i].arg, schema).Ok?
        ensures HasType(args.value[i], ExprType(calls[i].arg, schema).value)
      {
        assert EvalArg(calls[i].arg, row.values, schema) == Ok(args.value[i]);
        EvalFits(calls[i].arg, row.values, schema, typed);
      }
    }
  }

  predicate AllKeyedFit(keyed: seq<KeyedRow>, groupBy: seq<Expr>, calls: seq<AggCall>, schema: Schema, typed: bool) {
    forall i | 0 <= i < |keyed| :: KeyedFits(keyed[i], groupBy, calls, schema, typed)
  }

  lemma {:induction false} KeyRowsFit(rows: seq<Tuple>, groupBy: seq<Expr>, calls: seq<AggCall>, schema: Schema, typed: bool)
    requires RowsFit(rows, schema, typed) && KnownCalls(calls)
    ensures var r := KeyRows(rows, groupBy, calls, schema);
            (r.Err? ==> InBounds(r.error)) && (r.Ok? ==> AllKeyedFit(r.value, groupBy, calls, schema, typed))
  {
    hide KeyRow, Fits, KeyedFits;
    if rows != [] {
      KeyRowFits(rows[0], groupBy, calls, schema, typed);
      KeyRowsFit(rows[1..], groupBy, calls, schema, typed);
    }
  }

  /** The columns of an aggregation's output, in two parts. */
  ghost predicate AggSchema(groupBy: seq<Expr>, calls: seq<AggCall>, schema: Schema, keys: seq<Column>, aggs: seq<Column>) {
    GroupColumns(groupBy, schema) == Ok(keys) && AggColumns(calls, schema) == Ok(aggs)
  }

  lemma TypedCallsAreKnown(calls: seq<AggCall>, schema: Schema)
    requires AggColumns(calls, schema).Ok?
    ensures KnownCalls(calls)
  {
    hide ExprType;
    var aggs := AggColumns(calls, schema).value;
    forall i | 0 <= i < |calls| ensures IsAggregateName(calls[i].func) {
      assert AggType(calls[i].func, calls[i].arg, schema) == Ok(aggs[i].dataType);
    }
  }

  lemma FinalsFit(members: seq<KeyedRow>, groupBy: seq<Expr>, calls: seq<AggCall>, schema: Schema,
                  aggs: seq<Column>, typed: bool)
    requires AllKeyedFit(members, groupBy, calls, schema, typed) && AggColumns(calls, schema) == Ok(aggs)
    requires KnownCalls(calls) && ArgsFit(members, calls)
    ensures Fits(Finals(GroupStates(members, calls)), Schema(aggs), typed)
  {
    hide ExprType, AggType, HasType, Fold;
    var finals := Finals(GroupStates(members, calls));
    if typed {
      forall i | 0 <= i < |calls| ensures HasType(finals[i], aggs[i].dataType) {
        var vals := Argument(members, i);
        if ExprType(calls[i].arg, schema).Ok? {
          forall j | 0 <= j < |vals| ensures HasType(vals[j], ExprType(calls[i].arg, schema).value) {
            assert KeyedFits(members[j], groupBy, calls, schema, true);
          }
        }
        assert AggType(calls[i].func, calls[i].arg, schema) == Ok(aggs[i].dataType);
        AggregateHasType(calls[i], vals, schema);
        assert finals[i] == Aggregate(calls[i].func, vals);
      }
    }
  }

  lemma FitsSideBySide(a: seq<Value>, b: seq<Value>, keys: seq<Column>, aggs: seq<Column>, typed: bool)
    requires Fits(a, Schema(keys), typed) && Fits(b, Schema(aggs), typed)
    ensures Fits(a + b, Schema(keys + aggs), typed)
  {
    hide HasType;
  }

  lemma GroupValsFit(k: KeyedRow, groupBy: seq<Expr>, calls: seq<AggCall>, schema: Schema, keys: seq<Column>, typed: bool)
    requires KeyedFits(k, groupBy, calls, schema, typed) && GroupColumns(groupBy, schema) == Ok(keys)
    ensures Fits(k.groupVals, Schema(keys), typed)
  {
    hide ExprType, HasType;
    assert forall i | 0 <= i < |groupBy| :: ExprType(groupBy[i], schema) == Ok(keys[i].dataType);
  }

  lemma GroupRowFits(members: seq<KeyedRow>, groupBy: seq<Expr>, calls: seq<AggCall>, schema: Schema,
                     keys: seq<Column>, aggs: seq<Column>, typed: bool)
    requires members != [] && AllKeyedFit(members, groupBy, calls, schema, typed)
    requires AggSchema(groupBy, calls, schema, keys, aggs)
    requires KnownCalls(calls) && ArgsFit(members, calls)
    ensures Fits(GroupRow(members, calls).values, Schema(keys + aggs), typed)
  {
    hide Fits, KeyedFits, GroupStates, GroupColumns, AggColumns;
    var last := members[|members| - 1];
    GroupValsFit(last, groupBy, calls, schema, keys, typed);
    FinalsFit(members, groupBy, calls, schema, aggs, typed);
    FitsSideBySide(last.groupVals, Finals(GroupStates(members, calls)), keys, aggs, typed);
  }

  lemma MembersFitToo(keyed: seq<KeyedRow>, key: string, groupBy: seq<Expr>, calls: seq<AggCall>, schema: Schema, typed: bool)
    requires AllKeyedFit(keyed, groupBy, calls, schema, typed)
    ensures AllKeyedFit(Members(keyed, key), groupBy, calls, schema, typed)
  {
    hide KeyedFits;
    var m := Members(keyed, key);
    forall i | 0 <= i < |m| ensures KeyedFits(m[i], groupBy, calls, schema, typed) {
      assert m[i] in keyed;
    }
  }

  lemma {:induction false} GroupRowsFit(order: seq<string>, keyed: seq<KeyedRow>, groupBy: seq<Expr>, calls: seq<AggCall>,
                                        schema: Schema, keys: seq<Column>, aggs: seq<Column>, typed: bool)
    requires AllKeyedFit(keyed, groupBy, calls, schema, typed) && AggSchema(groupBy, calls, schema, keys, aggs)
    requires KnownCalls(calls) && ArgsFit(keyed, calls)
    requires forall k | k in order :: k in Keys(keyed)
    ensures RowsFit(GroupRows(order, keyed, calls), Schema(keys + aggs), typed)
  {
    hide Fits, AllKeyedFit, GroupRow, Keys, AggSchema;
    if order != [] {
      MembersFit(keyed, order[0], calls);
      MembersFitToo(keyed, order[0], groupBy, calls, schema, typed);
      GroupRowFits(Members(keyed, order[0]), groupBy, calls, schema, keys, aggs, typed);
      hide Members;
      GroupRowsFit(order[1..], keyed, groupBy, calls, schema, keys, aggs, typed);
    }
  }

  lemma EmptyGroupFits(calls: seq<AggCall>, schema: Schema, aggs: seq<Column>, typed: bool)
    requires AggColumns(calls, schema) == Ok(aggs) && KnownCalls(calls)
    ensures Fits(Finals(EmptyStates(calls)), Schema(aggs), typed)
  {
    NoMembersNoUpdates(calls);
    FinalsFit([], [], calls, schema, aggs, typed);
  }

  lemma AggFits(child: Outcome, groupBy: seq<Expr>, calls: seq<AggCall>, schema: Schema, hashOrder: HashOrder,
                keys: seq<Column>, aggs: seq<Column>, typed: bool)
    requires OutcomeFits(child, schema, typed) && AggSchema(groupBy, calls, schema, keys, aggs)
    ensures OutcomeFits(AggOutcome(child, groupBy, calls, schema, hashOrder), Schema(keys + aggs), typed)
  {
    hide Fits, AllKeyedFit, KeyRow, Members, Keys, GroupRows;
    TypedCallsAreKnown(calls, schema);
    if child.Started? {
      var s := child.stream;
      KeyRowsFit(s.rows, groupBy, calls, schema, typed);
      hide KeyRows;
      var keyed := KeyRows(s.rows, groupBy, calls, schema);
      if keyed.Ok? && s.end.Done? {
        KeyedRowsFit(s.rows, groupBy, calls, schema);
        if s.rows != [] {
          GroupRowsFit(hashOrder(Keys(keyed.value)), keyed.value, groupBy, calls, schema, keys, aggs, typed);
        } else if groupBy == [] {
          EmptyGroupFits(calls, schema, aggs, typed);
          assert keys + aggs == aggs;
        }
      }
    }
  }

  // Plans.

  lemma JoinFits(left: Outcome, right: Outcome, cond: Option<Expr>, ls: Schema, rs: Schema, typed: bool)
    requires OutcomeFits(left, ls, typed) && OutcomeFits(right, rs, typed)
    ensures OutcomeFits(JoinOutcome(left, right, cond, Schema(ls.columns + rs.columns)), Schema(ls.columns + rs.columns), typed)
  {
    hide Fits, JoinFrom;
    if left.Started? && right.Started? && left.stream.rows != [] && right.stream.end.Done? {
      var l := left.stream;
      JoinFromFits(l.rows[0], right.stream.rows, l.Tail(), right.stream.rows, cond, ls, rs, typed);
    }
  }

  lemma ScannedTableFits(ctx: ExecutionContext, catalog: CatalogMap, table: string, alias: Option<string>, typed: bool)
    requires StoredRowsFit(catalog, ctx.tables, typed)
    requires PlanSchema(Scan(table, alias), catalog).Ok?
    ensures OutcomeFits(Started(ScanStream(ctx, table, 0)), PlanSchema(Scan(table, alias), catalog).value, typed)
  {
    var schema := PlanSchema(Scan(table, alias), catalog).value;
    assert |schema.columns| == |catalog[table].columns|;
    assert forall i | 0 <= i < |schema.columns| :: schema.columns[i].dataType == catalog[table].columns[i].dataType;
    if table in ctx.tables {
      var rows := ctx.tables[table];
      assert rows[0..] == rows;
      forall i | 0 <= i < |rows| ensures Fits(rows[i].values, schema, typed) {
        assert Fits(rows[i].values, catalog[table], typed);
      }
      ScanFits(ctx, rows, schema, typed);
    }
  }

  /** Schema soundness. If the stored rows fit the catalog and the plan has a schema, every row the plan
      delivers fits that schema, and the plan never panics. With `typed` false it speaks of widths only. */
  lemma {:induction false} PlanFits(plan: LogicalPlan, catalog: CatalogMap, ctx: ExecutionContext, typed: bool)
    requires StoredRowsFit(catalog, ctx.tables, typed)
    requires PlanSchema(plan, catalog).Ok?
    ensures OutcomeFits(Denote(plan, catalog, ctx), PlanSchema(plan, catalog).value, typed)
    decreases plan
  {
    hide StreamFits, StoredRowsFit, FilterStream, ProjectStream, LimitStream, ScanStream, JoinOutcome, AggOutcome;
    match plan
    case DummyScan =>
      assert StreamFits(Stream([Plain([])], Done), Schema([]), typed) by {
        DummyFits(typed);
      }
    case Scan(tableName, alias) =>
      ScannedTableFits(ctx, catalog, tableName, alias, typed);
    case Filter(child, pred) =>
      PlanFits(child, catalog, ctx, typed);
      var o := Denote(child, catalog, ctx);
      if o.Started? {
        FilterFits(o.stream, pred, PlanSchema(child, catalog).value, typed);
      }
    case Project(child, exprs) =>
      PlanFits(child, catalog, ctx, typed);
      var o := Denote(child, catalog, ctx);
      if o.Started? {
        var schema := PlanSchema(child, catalog).value;
        ProjectFits(o.stream, exprs, schema, ProjectColumns(exprs, schema).value, typed);
      }
    case Limit(child, limit, offset) =>
      PlanFits(child, catalog, ctx, typed);
      var o := Denote(child, catalog, ctx);
      if o.Started? {
        LimitFits(o.stream, ValueOr(offset, 0), limit, PlanSchema(child, catalog).value, typed);
      }
    case Sort(child, orderBy) =>
      PlanFits(child, catalog, ctx, typed);
      SortOutcomeFits(Denote(child, catalog, ctx), orderBy, PlanSchema(child, catalog).value, typed);
    case Join(left, right, condition) =>
      PlanFits(left, catalog, ctx, typed);
      PlanFits(right, catalog, ctx, typed);
      JoinFits(Denote(left, catalog, ctx), Denote(right, catalog, ctx), condition,
               PlanSchema(left, catalog).value, PlanSchema(right, catalog).value, typed);
    case Agg(child, groupBy, aggFuncs) =>
      PlanFits(child, catalog, ctx, typed);
      var schema := PlanSchema(child, catalog).value;
      AggFits(Denote(child, catalog, ctx), groupBy, aggFuncs, schema, ctx.hashOrder,
              GroupColumns(groupBy, schema).value, AggColumns(aggFuncs, schema).value, typed);
  }

  lemma DummyFits(typed: bool)
    ensures StreamFits(Stream([Plain([])], Done), Schema([]), typed)
  {
  }

  lemma SortOutcomeFits(child: Outcome, orderBy: seq<(Expr, bool)>, schema: Schema, typed: bool)
    requires OutcomeFits(child, schema, typed)
    ensures OutcomeFits(SortOutcome(child, orderBy, schema), schema, typed)
  {
    if child.Started? {
      SortFits(child.stream.rows, orderBy, schema, typed);
    }
  }
}
