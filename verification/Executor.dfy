/** The Volcano operators (src/executor.rs). Each operator is an object whose abstract value is the
    stream it still has to deliver; Init and Next are proved against the meaning of its plan. */
module Executor {
  import opened Wrappers
  import opened Storage
  import opened Catalog
  import opened Planner
  import opened Transactions
  import opened Aggregation
  import opened GroupKey
  import opened Meaning
  import opened Grouping
  import Sorting

  /** What Init promises: the plan's failure, or the plan's whole stream. */
  ghost predicate InitMeets(meaning: Outcome, pending: Stream, r: Result<()>) {
    match meaning
    case Aborted(e) => r == Err(e)
    case Started(s) => r == Ok(()) && pending == s
  }

  /** What Next promises: the head of the pending stream, and after the last row its end for good. */
  ghost predicate NextMeets(before: Stream, after: Stream, r: Result<Option<Tuple>>) {
    if before.rows != [] then r == Ok(Some(before.rows[0])) && after == before.Tail()
    else
      match before.end
      case Done => r == Ok(None) && after == before
      case Fail(e) => r == Err(e)
  }

  lemma OneRead(seen: seq<Tuple>, rest: seq<Tuple>)
    requires rest != []
    ensures (seen + [rest[0]]) + rest[1..] == seen + rest
  {
  }

  /** The implementors of the operator interface. */
  datatype Executor =
    | DummyScanOp(dummy: DummyScanExecutor)
    | SeqScanOp(scan: SeqScanExecutor)
    | FilterOp(filter: FilterExecutor)
    | ProjectOp(project: ProjectExecutor)
    | LimitOp(limit: LimitExecutor)
    | SortOp(sort: SortExecutor)
    | JoinOp(join: NestedLoopJoinExecutor)
    | AggOp(agg: HashAggExecutor)
  {
    ghost function Repr(): set<object> {
      match this
      case DummyScanOp(x) => {x} + x.Repr
      case SeqScanOp(x) => {x} + x.Repr
      case FilterOp(x) => {x} + x.Repr
      case ProjectOp(x) => {x} + x.Repr
      case LimitOp(x) => {x} + x.Repr
      case SortOp(x) => {x} + x.Repr
      case JoinOp(x) => {x} + x.Repr
      case AggOp(x) => {x} + x.Repr
    }

    ghost function Plan(): LogicalPlan {
      match this
      case DummyScanOp(x) => x.plan
      case SeqScanOp(x) => x.plan
      case FilterOp(x) => x.plan
      case ProjectOp(x) => x.plan
      case LimitOp(x) => x.plan
      case SortOp(x) => x.plan
      case JoinOp(x) => x.plan
      case AggOp(x) => x.plan
    }

    /** The operator is well formed, over its own plan and this catalog. */
    ghost predicate Valid(catalog: CatalogMap)
      reads Repr()
      decreases Repr(), 1
    {
      match this
      case DummyScanOp(x) => x.Valid(catalog)
      case SeqScanOp(x) => x.Valid(catalog)
      case FilterOp(x) => x.Valid(catalog)
      case ProjectOp(x) => x.Valid(catalog)
      case LimitOp(x) => x.Valid(catalog)
      case SortOp(x) => x.Valid(catalog)
      case JoinOp(x) => x.Valid(catalog)
      case AggOp(x) => x.Valid(catalog)
    }

    /** The stream the operator still has to deliver. */
    ghost function Pending(catalog: CatalogMap, ctx: ExecutionContext): Stream
      requires Valid(catalog)
      reads Repr()
      decreases Repr(), 1
    {
      match this
      case DummyScanOp(x) => x.Pending(catalog, ctx)
      case SeqScanOp(x) => x.Pending(catalog, ctx)
      case FilterOp(x) => x.Pending(catalog, ctx)
      case ProjectOp(x) => x.Pending(catalog, ctx)
      case LimitOp(x) => x.Pending(catalog, ctx)
      case SortOp(x) => x.Pending(catalog, ctx)
      case JoinOp(x) => x.Pending(catalog, ctx)
      case AggOp(x) => x.Pending(catalog, ctx)
    }

    method Init(ctx: ExecutionContext, ghost catalog: CatalogMap) returns (r: Result<()>)
      requires Valid(catalog)
      modifies Repr()
      ensures Valid(catalog)
      ensures InitMeets(Denote(Plan(), catalog, ctx), Pending(catalog, ctx), r)
      decreases Repr(), 1
    {
      match this
      case DummyScanOp(x) => r := x.Init(ctx, catalog);
      case SeqScanOp(x) => r := x.Init(ctx, catalog);
      case FilterOp(x) => r := x.Init(ctx, catalog);
      case ProjectOp(x) => r := x.Init(ctx, catalog);
      case LimitOp(x) => r := x.Init(ctx, catalog);
      case SortOp(x) => r := x.Init(ctx, catalog);
      case JoinOp(x) => r := x.Init(ctx, catalog);
      case AggOp(x) => r := x.Init(ctx, catalog);
    }

    method Next(ctx: ExecutionContext, ghost catalog: CatalogMap) returns (r: Result<Option<Tuple>>)
      requires Valid(catalog)
      modifies Repr()
      ensures Valid(catalog)
      ensures NextMeets(old(Pending(catalog, ctx)), Pending(catalog, ctx), r)
      decreases Repr(), 1
    {
      match this
      case DummyScanOp(x) => r := x.Next(ctx, catalog);
      case SeqScanOp(x) => r := x.Next(ctx, catalog);
      case FilterOp(x) => r := x.Next(ctx, catalog);
      case ProjectOp(x) => r := x.Next(ctx, catalog);
      case LimitOp(x) => r := x.Next(ctx, catalog);
      case SortOp(x) => r := x.Next(ctx, catalog);
      case JoinOp(x) => r := x.Next(ctx, catalog);
      case AggOp(x) => r := x.Next(ctx, catalog);
    }
  }

  class DummyScanExecutor {
    var done: bool
    ghost const plan: LogicalPlan
    ghost const Repr: set<object>

    ghost predicate Valid(catalog: CatalogMap)
      reads this, Repr
      decreases Repr, 0
    {
      this in Repr && plan == DummyScan
    }

    ghost function Pending(catalog: CatalogMap, ctx: ExecutionContext): Stream
      requires Valid(catalog)
      reads this, Repr
      decreases Repr, 0
    {
      Stream(if done then [] else [Plain([])], Done)
    }

    constructor (ghost catalog: CatalogMap)
      ensures Valid(catalog) && fresh(Repr) && plan == DummyScan
    {
      done := false;
      plan, Repr := DummyScan, {this};
    }

    method Init(ctx: ExecutionContext, ghost catalog: CatalogMap) returns (r: Result<()>)
      requires Valid(catalog)
      modifies Repr
      ensures Valid(catalog)
      ensures InitMeets(Denote(plan, catalog, ctx), Pending(catalog, ctx), r)
      decreases Repr, 0
    {
      done := false;
      r := Ok(());
    }

    method Next(ctx: ExecutionContext, ghost catalog: CatalogMap) returns (r: Result<Option<Tuple>>)
      requires Valid(catalog)
      modifies Repr
      ensures Valid(catalog)
      ensures NextMeets(old(Pending(catalog, ctx)), Pending(catalog, ctx), r)
      decreases Repr, 0
    {
      if !done {
        done := true;
        r := Ok(Some(Plain([])));
      } else {
        r := Ok(None);
      }
    }
  }

  class SeqScanExecutor {
    const tableName: string
    var cursor: nat
    ghost const plan: LogicalPlan
    ghost const Repr: set<object>

    ghost predicate Valid(catalog: CatalogMap)
      reads this, Repr
      decreases Repr, 0
    {
      this in Repr && plan.Scan? && plan.tableName == tableName
    }

    ghost function Pending(catalog: CatalogMap, ctx: ExecutionContext): Stream
      requires Valid(catalog)
      reads this, Repr
      decreases Repr, 0
    {
      ScanStream(ctx, tableName, cursor)
    }

    constructor (tableName: string, ghost alias: Option<string>, ghost catalog: CatalogMap)
      ensures Valid(catalog) && fresh(Repr) && plan == Scan(tableName, alias)
    {
      this.tableName, cursor := tableName, 0;
      plan, Repr := Scan(tableName, alias), {this};
    }

    method Init(ctx: ExecutionContext, ghost catalog: CatalogMap) returns (r: Result<()>)
      requires Valid(catalog)
      modifies Repr
      ensures Valid(catalog)
      ensures InitMeets(Denote(plan, catalog, ctx), Pending(catalog, ctx), r)
      decreases Repr, 0
    {
      cursor := 0;
      r := Ok(());
    }

    method Next(ctx: ExecutionContext, ghost catalog: CatalogMap) returns (r: Result<Option<Tuple>>)
      requires Valid(catalog)
      modifies Repr
      ensures Valid(catalog)
      ensures NextMeets(old(Pending(catalog, ctx)), Pending(catalog, ctx), r)
      decreases Repr, 0
    {
      if tableName in ctx.tables {
        var tuples := ctx.tables[tableName];
        while cursor < |tuples|
          invariant Valid(catalog)
          invariant Pending(catalog, ctx) == old(Pending(catalog, ctx))
          decreases |tuples| - cursor
        {
          var t := tuples[cursor];
          assert tuples[cursor..][1..] == tuples[cursor + 1..];
          cursor := cursor + 1;
          if ctx.Sees(t) {
            return Ok(Some(t));
          }
        }
        r := Ok(None);
      } else {
        r := Err(TableNotInStorage(tableName));
      }
    }
  }

  class FilterExecutor {
    const child: Executor
    const pred: Expr
    const schema: Schema
    ghost const plan: LogicalPlan
    ghost const Repr: set<object>

    ghost predicate Valid(catalog: CatalogMap)
      reads this, Repr
      decreases Repr, 0
    {
      && this in Repr && child.Repr() <= Repr && this !in child.Repr()
      && child.Valid(catalog)
      && plan == Filter(child.Plan(), pred)
      && PlanSchema(child.Plan(), catalog) == Ok(schema)
    }

    ghost function Pending(catalog: CatalogMap, ctx: ExecutionContext): Stream
      requires Valid(catalog)
      reads this, Repr
      decreases Repr, 0
    {
      FilterStream(child.Pending(catalog, ctx), pred, schema)
    }

    constructor (child: Executor, pred: Expr, schema: Schema, ghost catalog: CatalogMap)
      requires child.Valid(catalog)
      requires PlanSchema(child.Plan(), catalog) == Ok(schema)
      ensures Valid(catalog) && fresh(Repr - child.Repr()) && plan == Filter(child.Plan(), pred)
    {
      this.child, this.pred, this.schema := child, pred, schema;
      plan, Repr := Filter(child.Plan(), pred), {this} + child.Repr();
    }

    method Init(ctx: ExecutionContext, ghost catalog: CatalogMap) returns (r: Result<()>)
      requires Valid(catalog)
      modifies Repr
      ensures Valid(catalog)
      ensures InitMeets(Denote(plan, catalog, ctx), Pending(catalog, ctx), r)
      decreases Repr, 0
    {
      hide Denote, Executor.Valid, Executor.Pending, Executor.Repr, Executor.Plan;
      DenoteUnfolds(plan, catalog, ctx);
      r := child.Init(ctx, catalog);
    }

    method Next(ctx: ExecutionContext, ghost catalog: CatalogMap) returns (r: Result<Option<Tuple>>)
      requires Valid(catalog)
      modifies Repr
      ensures Valid(catalog)
      ensures NextMeets(old(Pending(catalog, ctx)), Pending(catalog, ctx), r)
      decreases Repr, 0
    {
      hide Executor.Valid, Executor.Pending, Executor.Repr, Executor.Plan;
      while true
        invariant Valid(catalog)
        invariant Pending(catalog, ctx) == old(Pending(catalog, ctx))
        decreases |child.Pending(catalog, ctx).rows|
      {
        var next := child.Next(ctx, catalog);
        if next.Err? {
          return Err(next.error);
        }
        if next.value.None? {
          return Ok(None);
        }
        var val := Eval(pred, next.value.value.values, schema);
        if val.Err? {
          return Err(val.error);
        }
        if val.value.IsTruthy() {
          return next;
        }
      }
    }
  }

  class ProjectExecutor {
    const child: Executor
    const exprs: seq<Expr>
    const childSchema: Schema
    ghost const plan: LogicalPlan
    ghost const Repr: set<object>

    ghost predicate Valid(catalog: CatalogMap)
      reads this, Repr
      decreases Repr, 0
    {
      && this in Repr && child.Repr() <= Repr && this !in child.Repr()
      && child.Valid(catalog)
      && plan.Project? && plan.child == child.Plan() && exprs == Exprs(plan.exprs)
      && PlanSchema(child.Plan(), catalog) == Ok(childSchema)
    }

    ghost function Pending(catalog: CatalogMap, ctx: ExecutionContext): Stream
      requires Valid(catalog)
      reads this, Repr
      decreases Repr, 0
    {
      ProjectStream(child.Pending(catalog, ctx), exprs, childSchema)
    }

    constructor (child: Executor, items: seq<(Expr, string)>, childSchema: Schema, ghost catalog: CatalogMap)
      requires child.Valid(catalog)
      requires PlanSchema(child.Plan(), catalog) == Ok(childSchema)
      ensures Valid(catalog) && fresh(Repr - child.Repr()) && plan == Project(child.Plan(), items)
    {
      this.child, this.exprs, this.childSchema := child, Exprs(items), childSchema;
      plan, Repr := Project(child.Plan(), items), {this} + child.Repr();
    }

    method Init(ctx: ExecutionContext, ghost catalog: CatalogMap) returns (r: Result<()>)
      requires Valid(catalog)
      modifies Repr
      ensures Valid(catalog)
      ensures InitMeets(Denote(plan, catalog, ctx), Pending(catalog, ctx), r)
      decreases Repr, 0
    {
      hide Denote, Executor.Valid, Executor.Pending, Executor.Repr, Executor.Plan;
      DenoteUnfolds(plan, catalog, ctx);
      r := child.Init(ctx, catalog);
    }

    method Next(ctx: ExecutionContext, ghost catalog: CatalogMap) returns (r: Result<Option<Tuple>>)
      requires Valid(catalog)
      modifies Repr
      ensures Valid(catalog)
      ensures NextMeets(old(Pending(catalog, ctx)), Pending(catalog, ctx), r)
      decreases Repr, 0
    {
      hide Executor.Valid, Executor.Pending, Executor.Repr, Executor.Plan;
      var next := child.Next(ctx, catalog);
      if next.Err? {
        return Err(next.error);
      }
      if next.value.None? {
        return Ok(None);
      }
      var vals := EvalAll(exprs, next.value.value.values, childSchema);
      if vals.Err? {
        return Err(vals.error);
      }
      r := Ok(Some(Plain(vals.value)));
    }
  }

  class LimitExecutor {
    const child: Executor
    const limit: Option<nat>
    const offset: Option<nat>
    var cursor: nat
    ghost const plan: LogicalPlan
    ghost const Repr: set<object>

    ghost predicate Valid(catalog: CatalogMap)
      reads this, Repr
      decreases Repr, 0
    {
      && this in Repr && child.Repr() <= Repr && this !in child.Repr()
      && child.Valid(catalog)
      && plan == Limit(child.Plan(), limit, offset)
    }

    ghost function Pending(catalog: CatalogMap, ctx: ExecutionContext): Stream
      requires Valid(catalog)
      reads this, Repr
      decreases Repr, 0
    {
      LimitStream(child.Pending(catalog, ctx), Minus(ValueOr(offset, 0), cursor), Left())
    }

    ghost function Left(): Option<nat>
      reads this
    {
      if limit.None? then None else Some(Minus(limit.value, Minus(cursor, ValueOr(offset, 0))))
    }

    static function Minus(a: nat, b: nat): nat {
      if a > b then a - b else 0
    }

    constructor (child: Executor, limit: Option<nat>, offset: Option<nat>, ghost catalog: CatalogMap)
      requires child.Valid(catalog)
      ensures Valid(catalog) && fresh(Repr - child.Repr()) && plan == Limit(child.Plan(), limit, offset)
    {
      this.child, this.limit, this.offset, cursor := child, limit, offset, 0;
      plan, Repr := Limit(child.Plan(), limit, offset), {this} + child.Repr();
    }

    method Init(ctx: ExecutionContext, ghost catalog: CatalogMap) returns (r: Result<()>)
      requires Valid(catalog)
      modifies Repr
      ensures Valid(catalog)
      ensures InitMeets(Denote(plan, catalog, ctx), Pending(catalog, ctx), r)
      decreases Repr, 0
    {
      hide Denote, Executor.Valid, Executor.Pending, Executor.Repr, Executor.Plan;
      DenoteUnfolds(plan, catalog, ctx);
      r := child.Init(ctx, catalog);
      if r.Err? {
        return;
      }
      cursor := 0;
    }

    method Next(ctx: ExecutionContext, ghost catalog: CatalogMap) returns (r: Result<Option<Tuple>>)
      requires Valid(catalog)
      modifies Repr
      ensures Valid(catalog)
      ensures NextMeets(old(Pending(catalog, ctx)), Pending(catalog, ctx), r)
      decreases Repr, 0
    {
      hide Executor.Valid, Executor.Pending, Executor.Repr, Executor.Plan;
      var offset := ValueOr(this.offset, 0);
      while cursor < offset
        invariant Valid(catalog)
        invariant Pending(catalog, ctx) == old(Pending(catalog, ctx))
        decreases offset - cursor
      {
        var skipped := child.Next(ctx, catalog);
        if skipped.Err? {
          return skipped;
        }
        if skipped.value.None? {
          return Ok(None);
        }
        cursor := cursor + 1;
      }
      if limit.Some? && cursor - offset >= limit.value {
        return Ok(None);
      }
      r := child.Next(ctx, catalog);
      if r.Ok? && r.value.Some? {
        cursor := cursor + 1;
      }
    }
  }

  class SortExecutor {
    const child: Executor
    const orderBy: seq<(Expr, bool)>
    const schema: Schema
    var sortedTuples: seq<Tuple>
    var cursor: nat
    ghost const plan: LogicalPlan
    ghost const Repr: set<object>

    ghost predicate Valid(catalog: CatalogMap)
      reads this, Repr
      decreases Repr, 0
    {
      && this in Repr && child.Repr() <= Repr && this !in child.Repr()
      && child.Valid(catalog)
      && plan == Sort(child.Plan(), orderBy)
      && PlanSchema(child.Plan(), catalog) == Ok(schema)
      && cursor <= |sortedTuples|
    }

    ghost function Pending(catalog: CatalogMap, ctx: ExecutionContext): Stream
      requires Valid(catalog)
      reads this, Repr
      decreases Repr, 0
    {
      Stream(sortedTuples[cursor..], Done)
    }

    constructor (child: Executor, orderBy: seq<(Expr, bool)>, schema: Schema, ghost catalog: CatalogMap)
      requires child.Valid(catalog)
      requires PlanSchema(child.Plan(), catalog) == Ok(schema)
      ensures Valid(catalog) && fresh(Repr - child.Repr()) && plan == Sort(child.Plan(), orderBy)
    {
      this.child, this.orderBy, this.schema := child, orderBy, schema;
      sortedTuples, cursor := [], 0;
      plan, Repr := Sort(child.Plan(), orderBy), {this} + child.Repr();
    }

    method Init(ctx: ExecutionContext, ghost catalog: CatalogMap) returns (r: Result<()>)
      requires Valid(catalog)
      modifies Repr
      ensures Valid(catalog)
      ensures InitMeets(Denote(plan, catalog, ctx), Pending(catalog, ctx), r)
      decreases Repr, 0
    {
      hide Denote, Executor.Valid, Executor.Pending, Executor.Repr, Executor.Plan;
      hide PlanSchema;
      DenoteUnfolds(plan, catalog, ctx);
      r := child.Init(ctx, catalog);
      if r.Err? {
        return;
      }
      r := Materialize(ctx, catalog);
      if r.Err? {
        return;
      }
      var sorted := Sorting.LibrarySort(sortedTuples, orderBy, schema);
      if sorted.Err? {
        return Err(sorted.error);
      }
      sortedTuples := sorted.value;
      assert sortedTuples[0..] == sortedTuples;
    }

    /** Reads all tuples of the child. */
    method Materialize(ctx: ExecutionContext, ghost catalog: CatalogMap) returns (r: Result<()>)
      requires Valid(catalog)
      modifies `sortedTuples, `cursor, child.Repr()
      ensures Valid(catalog)
      ensures match old(child.Pending(catalog, ctx)).end
              case Done => r == Ok(()) && cursor == 0 && sortedTuples == old(child.Pending(catalog, ctx)).rows
              case Fail(e) => r == Err(e)
      decreases Repr, 0
    {
      hide Executor.Valid, Executor.Pending, Executor.Repr, Executor.Plan, PlanSchema;
      sortedTuples, cursor := [], 0;
      ghost var all := child.Pending(catalog, ctx);
      while true
        invariant Valid(catalog) && cursor == 0
        invariant all == Stream(sortedTuples + child.Pending(catalog, ctx).rows, child.Pending(catalog, ctx).end)
        decreases |child.Pending(catalog, ctx).rows|
      {
        ghost var rest := child.Pending(catalog, ctx).rows;
        var next := child.Next(ctx, catalog);
        if next.Err? {
          return Err(next.error);
        }
        if next.value.None? {
          break;
        }
        OneRead(sortedTuples, rest);
        sortedTuples := sortedTuples + [next.value.value];
      }
      assert sortedTuples + [] == sortedTuples;
      r := Ok(());
    }

    method Next(ctx: ExecutionContext, ghost catalog: CatalogMap) returns (r: Result<Option<Tuple>>)
      requires Valid(catalog)
      modifies Repr
      ensures Valid(catalog)
      ensures NextMeets(old(Pending(catalog, ctx)), Pending(catalog, ctx), r)
      decreases Repr, 0
    {
      hide Executor.Valid, Executor.Pending, Executor.Repr, Executor.Plan;
      if cursor < |sortedTuples| {
        r := Ok(Some(sortedTuples[cursor]));
        cursor := cursor + 1;
      } else {
        r := Ok(None);
      }
    }
  }

  class NestedLoopJoinExecutor {
    const left: Executor
    const right: Executor
    const condition: Option<Expr>
    const combinedSchema: Schema
    var rightTuples: seq<Tuple>
    var leftTuple: Option<Tuple>
    var rightCursor: nat
    ghost const plan: LogicalPlan
    ghost const Repr: set<object>

    ghost predicate Valid(catalog: CatalogMap)
      reads this, Repr
      decreases Repr, 0
    {
      && this in Repr && left.Repr() <= Repr && right.Repr() <= Repr
      && this !in left.Repr() && this !in right.Repr() && left.Repr() !! right.Repr()
      && left.Valid(catalog) && right.Valid(catalog)
      && plan == Join(left.Plan(), right.Plan(), condition)
      && PlanSchema(plan, catalog) == Ok(combinedSchema)
      && rightCursor <= |rightTuples|
    }

    ghost function Pending(catalog: CatalogMap, ctx: ExecutionContext): Stream
      requires Valid(catalog)
      reads this, Repr
      decreases Repr, 0
    {
      if leftTuple.None? then Stream([], Done)
      else JoinFrom(leftTuple.value, rightTuples[rightCursor..], left.Pending(catalog, ctx),
                    rightTuples, condition, combinedSchema)
    }

    constructor (left: Executor, right: Executor, condition: Option<Expr>, combinedSchema: Schema, ghost catalog: CatalogMap)
      requires left.Valid(catalog) && right.Valid(catalog) && left.Repr() !! right.Repr()
      requires PlanSchema(Join(left.Plan(), right.Plan(), condition), catalog) == Ok(combinedSchema)
      ensures Valid(catalog) && fresh(Repr - left.Repr() - right.Repr())
      ensures plan == Join(left.Plan(), right.Plan(), condition)
    {
      this.left, this.right, this.condition, this.combinedSchema := left, right, condition, combinedSchema;
      rightTuples, leftTuple, rightCursor := [], None, 0;
      plan, Repr := Join(left.Plan(), right.Plan(), condition), {this} + left.Repr() + right.Repr();
    }

    method Init(ctx: ExecutionContext, ghost catalog: CatalogMap) returns (r: Result<()>)
      requires Valid(catalog)
      modifies Repr
      ensures Valid(catalog)
      ensures InitMeets(Denote(plan, catalog, ctx), Pending(catalog, ctx), r)
      decreases Repr, 0
    {
      hide Denote, Executor.Valid, Executor.Pending, Executor.Repr, Executor.Plan;
      hide PlanSchema, JoinFrom;
      DenoteUnfolds(plan, catalog, ctx);
      r := left.Init(ctx, catalog);
      if r.Err? {
        return;
      }
      ghost var lefts := left.Pending(catalog, ctx);
      r := right.Init(ctx, catalog);
      if r.Err? {
        return;
      }
      r := CacheRight(ctx, catalog);
      if r.Err? {
        return;
      }
      var first := left.Next(ctx, catalog);
      if first.Err? {
        return Err(first.error);
      }
      leftTuple := first.value;
      assert rightTuples[0..] == rightTuples;
      r := Ok(());
    }

    /** Caches the right relation. */
    method CacheRight(ctx: ExecutionContext, ghost catalog: CatalogMap) returns (r: Result<()>)
      requires Valid(catalog)
      modifies `rightTuples, `rightCursor, right.Repr()
      ensures Valid(catalog)
      ensures left.Pending(catalog, ctx) == old(left.Pending(catalog, ctx))
      ensures match old(right.Pending(catalog, ctx)).end
              case Done => r == Ok(()) && rightCursor == 0 && rightTuples == old(right.Pending(catalog, ctx)).rows
              case Fail(e) => r == Err(e)
      decreases Repr, 0
    {
      hide Executor.Valid, Executor.Pending, Executor.Repr, Executor.Plan, PlanSchema;
      rightTuples, rightCursor := [], 0;
      ghost var rights := right.Pending(catalog, ctx);
      while true
        invariant Valid(catalog) && rightCursor == 0
        invariant left.Pending(catalog, ctx) == old(left.Pending(catalog, ctx))
        invariant rights == Stream(rightTuples + right.Pending(catalog, ctx).rows, right.Pending(catalog, ctx).end)
        decreases |right.Pending(catalog, ctx).rows|
      {
        ghost var rest := right.Pending(catalog, ctx).rows;
        var next := right.Next(ctx, catalog);
        if next.Err? {
          return Err(next.error);
        }
        if next.value.None? {
          break;
        }
        OneRead(rightTuples, rest);
        rightTuples := rightTuples + [next.value.value];
      }
      assert rightTuples + [] == rightTuples;
      r := Ok(());
    }

    method Next(ctx: ExecutionContext, ghost catalog: CatalogMap) returns (r: Result<Option<Tuple>>)
      requires Valid(catalog)
      modifies Repr
      ensures Valid(catalog)
      ensures NextMeets(old(Pending(catalog, ctx)), Pending(catalog, ctx), r)
      decreases Repr, 0
    {
      hide Executor.Valid, Executor.Pending, Executor.Repr, Executor.Plan;
      while true
        invariant Valid(catalog)
        invariant Pending(catalog, ctx) == old(Pending(catalog, ctx))
        decreases |left.Pending(catalog, ctx).rows|, leftTuple.Some?, |rightTuples| - rightCursor
      {
        if leftTuple.None? {
          return Ok(None);
        }
        if rightCursor >= |rightTuples| {
          var next := left.Next(ctx, catalog);
          if next.Err? {
            return Err(next.error);
          }
          leftTuple, rightCursor := next.value, 0;
          assert rightTuples[0..] == rightTuples;
          continue;
        }
        var row := Combine(leftTuple.value, rightTuples[rightCursor]);
        assert rightTuples[rightCursor..][1..] == rightTuples[rightCursor + 1..];
        rightCursor := rightCursor + 1;
        if condition.None? {
          return Ok(Some(row));
        }
        var val := Eval(condition.value, row.values, combinedSchema);
        if val.Err? {
          return Err(val.error);
        }
        if val.value.IsTruthy() {
          return Ok(Some(row));
        }
      }
    }
  }

  class HashAggExecutor {
    const child: Executor
    const groupBy: seq<Expr>
    const aggFuncs: seq<AggCall>
    const childSchema: Schema
    var groups: map<string, seq<AggState>>
    var groupKeys: map<string, seq<Value>>
    var resultKeys: seq<string>
    var cursor: nat
    ghost const plan: LogicalPlan
    ghost const Repr: set<object>

    ghost predicate Valid(catalog: CatalogMap)
      reads this, Repr
      decreases Repr, 0
    {
      && this in Repr && child.Repr() <= Repr && this !in child.Repr()
      && child.Valid(catalog)
      && plan == Agg(child.Plan(), groupBy, aggFuncs)
      && PlanSchema(child.Plan(), catalog) == Ok(childSchema)
      && cursor <= |resultKeys|
      && forall k | k in resultKeys :: k in groups && k in groupKeys
    }

    ghost function Pending(catalog: CatalogMap, ctx: ExecutionContext): Stream
      requires Valid(catalog)
      reads this, Repr
      decreases Repr, 0
    {
      Stream(Output(resultKeys[cursor..]), Done)
    }

    ghost function Output(keys: seq<string>): (rows: seq<Tuple>)
      requires forall k | k in keys :: k in groups && k in groupKeys
      reads this
      ensures |rows| == |keys|
      ensures forall i | 0 <= i < |keys| :: rows[i] == Plain(groupKeys[keys[i]] + Finals(groups[keys[i]]))
    {
      seq(|keys|, i requires 0 <= i < |keys| && keys[i] in groups && keys[i] in groupKeys reads this =>
        Plain(groupKeys[keys[i]] + Finals(groups[keys[i]])))
    }

    constructor (child: Executor, groupBy: seq<Expr>, aggFuncs: seq<AggCall>, childSchema: Schema, ghost catalog: CatalogMap)
      requires child.Valid(catalog)
      requires PlanSchema(child.Plan(), catalog) == Ok(childSchema)
      ensures Valid(catalog) && fresh(Repr - child.Repr()) && plan == Agg(child.Plan(), groupBy, aggFuncs)
    {
      this.child, this.groupBy, this.aggFuncs, this.childSchema := child, groupBy, aggFuncs, childSchema;
      groups, groupKeys, resultKeys, cursor := map[], map[], [], 0;
      plan, Repr := Agg(child.Plan(), groupBy, aggFuncs), {this} + child.Repr();
    }

    method Init(ctx: ExecutionContext, ghost catalog: CatalogMap) returns (r: Result<()>)
      requires Valid(catalog)
      modifies Repr
      ensures Valid(catalog)
      ensures InitMeets(Denote(plan, catalog, ctx), Pending(catalog, ctx), r)
      decreases Repr, 0
    {
      hide Denote, Executor.Valid, Executor.Pending, Executor.Repr, Executor.Plan;
      hide PlanSchema, KeyRows, KeyRow, Members, Keys, GroupsHold, GroupRows, ArgsFit, KnownCalls, FirstUnknown;
      DenoteUnfolds(plan, catalog, ctx);
      r := child.Init(ctx, catalog);
      if r.Err? {
        return;
      }
      groups, groupKeys, resultKeys, cursor := map[], map[], [], 0;
      ghost var rows := child.Pending(catalog, ctx).rows;
      NothingKeyed(groupBy, aggFuncs, childSchema);
      var childHasTuples := ReadChild(ctx, catalog);
      if childHasTuples.Err? {
        return Err(childHasTuples.error);
      }
      ghost var keyed := KeyRows(rows, groupBy, aggFuncs, childSchema).value;
      KeyedRowsFit(rows, groupBy, aggFuncs, childSchema);
      r := ListGroups(childHasTuples.value, ctx.hashOrder, keyed);
      assert resultKeys[0..] == resultKeys;
    }

    /** Adds the group of a global aggregation over no rows, and lists the groups in hash order. */
    method ListGroups(childHasTuples: bool, hashOrder: HashOrder, ghost keyed: seq<KeyedRow>) returns (r: Result<()>)
      requires GroupsHold(groups, groupKeys, keyed, aggFuncs) && childHasTuples == (keyed != [])
      requires cursor == 0 && resultKeys == []
      modifies `groups, `groupKeys, `resultKeys
      ensures forall k | k in resultKeys :: k in groups && k in groupKeys
      ensures if keyed != [] then
                KnownCalls(aggFuncs) && ArgsFit(keyed, aggFuncs) && r == Ok(()) &&
                Output(resultKeys) == GroupRows(hashOrder(Keys(keyed)), keyed, aggFuncs)
              else if groupBy != [] then r == Ok(()) && resultKeys == []
              else if !KnownCalls(aggFuncs) then r == Err(PanicUnknownAggregate(FirstUnknown(aggFuncs)))
              else r == Ok(()) && Output(resultKeys) == [Plain(Finals(EmptyStates(aggFuncs)))]
    {
      hide Members, Keys, GroupRows;
      HeldKeys(groups, groupKeys, keyed, aggFuncs);
      if !childHasTuples && groupBy == [] {
        if !KnownCalls(aggFuncs) {
          return Err(PanicUnknownAggregate(FirstUnknown(aggFuncs)));
        }
        groups := map["" := EmptyStates(aggFuncs)];
        groupKeys := map["" := []];
      }
      resultKeys := hashOrder(groups.Keys);
      r := Ok(());
      if childHasTuples {
        ListsGroups(keyed, resultKeys);
      } else {
        ListsNoRows(resultKeys);
      }
    }

    /** Reads the child to its end; tells whether it had any rows. */
    method ReadChild(ctx: ExecutionContext, ghost catalog: CatalogMap) returns (r: Result<bool>)
      requires Valid(catalog) && resultKeys == [] && cursor == 0
      requires groups == map[] && groupKeys == map[]
      modifies `groups, `groupKeys, child.Repr()
      ensures Valid(catalog)
      ensures var all := old(child.Pending(catalog, ctx));
              match KeyRows(all.rows, groupBy, aggFuncs, childSchema)
              case Err(e) => r == Err(e)
              case Ok(keyed) =>
                if all.end.Fail? then r == Err(all.end.error)
                else r == Ok(all.rows != []) && GroupsHold(groups, groupKeys, keyed, aggFuncs)
      decreases Repr, 0
    {
      hide Executor.Valid, Executor.Pending, Executor.Repr, Executor.Plan;
      hide PlanSchema, KeyRows, KeyRow, Members, Keys, GroupsHold;
      var childHasTuples := false;
      ghost var all := child.Pending(catalog, ctx);
      ghost var keyed := [];
      NothingKeyed(groupBy, aggFuncs, childSchema);
      assert all.rows[..0] == [];
      while true
        invariant Valid(catalog) && resultKeys == [] && cursor == 0
        invariant |keyed| <= |all.rows| && childHasTuples == (keyed != [])
        invariant child.Pending(catalog, ctx) == Stream(all.rows[|keyed|..], all.end)
        invariant GroupsHold(groups, groupKeys, keyed, aggFuncs)
        invariant KeyRows(all.rows[..|keyed|], groupBy, aggFuncs, childSchema) == Ok(keyed)
        decreases |child.Pending(catalog, ctx).rows|
      {
        var next := child.Next(ctx, catalog);
        if next.Err? {
          assert all.rows[..|keyed|] == all.rows;
          return Err(next.error);
        }
        if next.value.None? {
          assert all.rows[..|keyed|] == all.rows;
          break;
        }
        childHasTuples := true;
        var tuple := next.value.value;
        KeyRowsStep(all.rows, |keyed|, groupBy, aggFuncs, childSchema);
        var absorbed := Absorb(tuple, keyed);
        if absorbed.Err? {
          return Err(absorbed.error);
        }
        keyed := keyed + [KeyRow(tuple, groupBy, aggFuncs, childSchema).value];
      }
      r := Ok(childHasTuples);
    }

    /** Without child rows there is one group when there are no grouping columns, else none. */
    lemma ListsNoRows(order: seq<string>)
      requires Enumerates(order, groups.Keys) && groupKeys.Keys == groups.Keys
      requires groups == map[] || (KnownCalls(aggFuncs) && groups == map["" := EmptyStates(aggFuncs)] && groupKeys[""] == [])
      ensures Output(order) == if groups == map[] then [] else [Plain(Finals(EmptyStates(aggFuncs)))]
    {
      if groups == map[] {
        EnumeratesNothing(order);
      } else {
        assert "" in order;
        assert |order| > 1 ==> order[0] != order[1];
        forall i | 0 <= i < |order| ensures order[i] == "" {
          assert order[i] in groups.Keys;
        }
        assert |order| == 1;
        assert [] + Finals(EmptyStates(aggFuncs)) == Finals(EmptyStates(aggFuncs));
      }
    }

    /** One row of the child: find or create its group and update every aggregate of the group. */
    method Absorb(tuple: Tuple, ghost keyed: seq<KeyedRow>) returns (r: Result<()>)
      requires GroupsHold(groups, groupKeys, keyed, aggFuncs)
      modifies `groups, `groupKeys
      ensures match KeyRow(tuple, groupBy, aggFuncs, childSchema)
              case Err(e) => r == Err(e)
              case Ok(k) => r == Ok(()) && GroupsHold(groups, groupKeys, keyed + [k], aggFuncs)
    {
      hide EvalAll, EvalArgs, EvalArg, Members, Keys, GroupStates, GroupsHold, MakeGroupKey;
      var groupVals := EvalAll(groupBy, tuple.values, childSchema);
      if groupVals.Err? {
        return Err(groupVals.error);
      }
      var key := MakeGroupKey(groupVals.value);
      if !KnownCalls(aggFuncs) {
        return Err(PanicUnknownAggregate(FirstUnknown(aggFuncs)));
      }
      StatesBefore(groups, groupKeys, keyed, key, aggFuncs);
      var states := if key in groups then groups[key] else EmptyStates(aggFuncs);
      groups := groups[key := states];
      groupKeys := groupKeys[key := groupVals.value];
      r := UpdateGroup(key, tuple);
      if r.Ok? {
        ghost var k := KeyedRow(key, groupVals.value, EvalArgs(aggFuncs, tuple.values, childSchema).value);
        GroupsHoldStep(old(groups), old(groupKeys), keyed, k, groups[key], aggFuncs);
        assert groups == old(groups)[key := groups[key]];
      }
    }

    /** Feeds one tuple to every aggregate of a group, in order; the first argument that fails ends it. */
    method UpdateGroup(key: string, tuple: Tuple) returns (r: Result<()>)
      requires key in groups && |groups[key]| == |aggFuncs|
      modifies `groups
      ensures match EvalArgs(aggFuncs, tuple.values, childSchema)
              case Err(e) => r == Err(e)
              case Ok(args) =>
                && r == Ok(()) && key in groups && |groups[key]| == |aggFuncs|
                && groups == old(groups)[key := groups[key]]
                && forall j | 0 <= j < |aggFuncs| :: groups[key][j] == old(groups[key])[j].Update(args[j])
    {
      hide EvalArgs, EvalArg;
      ghost var start := groups[key];
      ghost var args := [];
      for i := 0 to |aggFuncs|
        invariant key in groups && |groups[key]| == |start| == |aggFuncs| && |args| == i
        invariant forall j | 0 <= j < i :: EvalArg(aggFuncs[j].arg, tuple.values, childSchema) == Ok(args[j])
        invariant forall j | 0 <= j < i :: groups[key][j] == start[j].Update(args[j])
        invariant forall j | i <= j < |aggFuncs| :: groups[key][j] == start[j]
        invariant groups == old(groups)[key := groups[key]]
      {
        var val := EvalArg(aggFuncs[i].arg, tuple.values, childSchema);
        EvalArgsSoFar(aggFuncs, args, tuple.values, childSchema);
        if val.Err? {
          return Err(val.error);
        }
        args := args + [val.value];
        groups := groups[key := groups[key][i := groups[key][i].Update(val.value)]];
      }
      EvalArgsSoFar(aggFuncs, args, tuple.values, childSchema);
      r := Ok(());
    }

    /** Listing the groups in hash order gives the group rows of the meaning. */
    lemma ListsGroups(keyed: seq<KeyedRow>, order: seq<string>)
      requires GroupsHold(groups, groupKeys, keyed, aggFuncs) && keyed != []
      requires forall k | k in order :: k in groups
      ensures Output(order) == GroupRows(order, keyed, aggFuncs)
    {
      hide Members, GroupStates, Keys;
      if order != [] {
        ListsGroups(keyed, order[1..]);
        var first := order[0];
        assert first in groups;
        assert GroupHolds(groups[first], groupKeys[first], Members(keyed, first), aggFuncs);
        assert Output(order)[0] == GroupRow(Members(keyed, first), aggFuncs);
        assert Output(order) == [Output(order)[0]] + Output(order[1..]);
      }
    }

    method Next(ctx: ExecutionContext, ghost catalog: CatalogMap) returns (r: Result<Option<Tuple>>)
      requires Valid(catalog)
      modifies Repr
      ensures Valid(catalog)
      ensures NextMeets(old(Pending(catalog, ctx)), Pending(catalog, ctx), r)
      decreases Repr, 0
    {
      hide Executor.Valid, Executor.Pending, Executor.Repr, Executor.Plan;
      if cursor < |resultKeys| {
        var key := resultKeys[cursor];
        assert resultKeys[cursor..][1..] == resultKeys[cursor + 1..];
        cursor := cursor + 1;
        r := Ok(Some(Plain(groupKeys[key] + Finals(groups[key]))));
      } else {
        r := Ok(None);
      }
    }
  }

  method BuildExecutor(plan: LogicalPlan, catalog: CatalogMap) returns (r: Result<Executor>)
    ensures match Buildable(plan, catalog)
            case Err(e) => r == Err(e)
            case Ok(_) => r.Ok? && r.value.Valid(catalog) && r.value.Plan() == plan && fresh(r.value.Repr())
    decreases plan, 1
  {
    match plan
    case DummyScan =>
      var op := new DummyScanExecutor(catalog);
      r := Ok(DummyScanOp(op));
    case Scan(tableName, alias) =>
      var op := new SeqScanExecutor(tableName, alias, catalog);
      r := Ok(SeqScanOp(op));
    case Limit(child, limit, offset) =>
      var childOp := BuildExecutor(child, catalog);
      if childOp.Err? {
        return childOp;
      }
      var op := new LimitExecutor(childOp.value, limit, offset, catalog);
      r := Ok(LimitOp(op));
    case Join(left, right, condition) =>
      r := BuildJoin(plan, left, right, condition, catalog);
    case _ =>
      r := BuildUnary(plan, catalog);
  }

  /** The operators that capture the schema of their one child. */
  method BuildUnary(plan: LogicalPlan, catalog: CatalogMap) returns (r: Result<Executor>)
    requires plan.Filter? || plan.Project? || plan.Sort? || plan.Agg?
    ensures match Buildable(plan, catalog)
            case Err(e) => r == Err(e)
            case Ok(_) => r.Ok? && r.value.Valid(catalog) && r.value.Plan() == plan && fresh(r.value.Repr())
    decreases plan, 0
  {
    assert Buildable(plan, catalog) == BuildableWithSchema(plan.child, catalog);
    assert BuildableWithSchema(plan.child, catalog) ==
           if Buildable(plan.child, catalog).Err? then Err(Buildable(plan.child, catalog).error)
           else if PlanSchema(plan.child, catalog).Err? then Err(PlanSchema(plan.child, catalog).error)
           else Ok(());
    var childOp := BuildExecutor(plan.child, catalog);
    if childOp.Err? {
      return childOp;
    }
    var schema := PlanSchema(plan.child, catalog);
    if schema.Err? {
      return Err(schema.error);
    }
    match plan
    case Filter(_, pred) =>
      var op := new FilterExecutor(childOp.value, pred, schema.value, catalog);
      r := Ok(FilterOp(op));
    case Project(_, exprs) =>
      var op := new ProjectExecutor(childOp.value, exprs, schema.value, catalog);
      r := Ok(ProjectOp(op));
    case Sort(_, orderBy) =>
      var op := new SortExecutor(childOp.value, orderBy, schema.value, catalog);
      r := Ok(SortOp(op));
    case Agg(_, groupBy, aggFuncs) =>
      var op := new HashAggExecutor(childOp.value, groupBy, aggFuncs, schema.value, catalog);
      r := Ok(AggOp(op));
  }

  method BuildJoin(plan: LogicalPlan, left: LogicalPlan, right: LogicalPlan, condition: Option<Expr>, catalog: CatalogMap)
    returns (r: Result<Executor>)
    requires plan == Join(left, right, condition)
    ensures match Buildable(plan, catalog)
            case Err(e) => r == Err(e)
            case Ok(_) => r.Ok? && r.value.Valid(catalog) && r.value.Plan() == plan && fresh(r.value.Repr())
    decreases plan, 0
  {
    hide PlanSchema;
    var leftOp := BuildExecutor(left, catalog);
    if leftOp.Err? {
      return leftOp;
    }
    var rightOp := BuildExecutor(right, catalog);
    if rightOp.Err? {
      return rightOp;
    }
    var schema := PlanSchema(plan, catalog);
    if schema.Err? {
      return Err(schema.error);
    }
    var op := JoinOperators(leftOp.value, rightOp.value, condition, schema.value, catalog);
    r := Ok(op);
  }

  method JoinOperators(left: Executor, right: Executor, condition: Option<Expr>, schema: Schema, ghost catalog: CatalogMap)
    returns (op: Executor)
    requires left.Valid(catalog) && right.Valid(catalog) && left.Repr() !! right.Repr()
    requires PlanSchema(Join(left.Plan(), right.Plan(), condition), catalog) == Ok(schema)
    ensures op.Valid(catalog) && op.Plan() == Join(left.Plan(), right.Plan(), condition)
    ensures fresh(op.Repr() - left.Repr() - right.Repr())
  {
    hide PlanSchema, NestedLoopJoinExecutor.Valid;
    var join := new NestedLoopJoinExecutor(left, right, condition, schema, catalog);
    op := JoinOp(join);
  }

  /** Builds, starts and drains the operators of a plan, as a query statement does. */
  method RunQuery(plan: LogicalPlan, catalog: CatalogMap, ctx: ExecutionContext) returns (r: Result<ResultSet>)
    ensures r == QueryResult(plan, catalog, ctx)
  {
    hide Executor.Valid, Executor.Pending, Executor.Repr, Executor.Plan, Denote, Buildable, PlanSchema;
    var built := BuildExecutor(plan, catalog);
    if built.Err? {
      return Err(built.error);
    }
    var op := built.value;
    var started := op.Init(ctx, catalog);
    if started.Err? {
      return Err(started.error);
    }
    var schema := PlanSchema(plan, catalog);
    if schema.Err? {
      return Err(schema.error);
    }
    var rows := Drain(op, catalog, ctx);
    if rows.Err? {
      return Err(rows.error);
    }
    r := Ok(ResultSet(schema.value, rows.value));
  }

  /** Pulls rows until the operator is exhausted. */
  method Drain(op: Executor, ghost catalog: CatalogMap, ctx: ExecutionContext) returns (r: Result<seq<Tuple>>)
    requires op.Valid(catalog)
    modifies op.Repr()
    ensures var all := old(op.Pending(catalog, ctx));
            match all.end
            case Done => r == Ok(all.rows)
            case Fail(e) => r == Err(e)
  {
    hide Executor.Valid, Executor.Pending, Executor.Repr, Executor.Plan;
    ghost var all := op.Pending(catalog, ctx);
    var rows := [];
    while true
      invariant op.Valid(catalog)
      invariant all == Stream(rows + op.Pending(catalog, ctx).rows, op.Pending(catalog, ctx).end)
      decreases |op.Pending(catalog, ctx).rows|
    {
      ghost var rest := op.Pending(catalog, ctx).rows;
      var next := op.Next(ctx, catalog);
      if next.Err? {
        return Err(next.error);
      }
      if next.value.None? {
        break;
      }
      OneRead(rows, rest);
      rows := rows + [next.value.value];
    }
    assert rows + [] == rows;
    r := Ok(rows);
  }
}
