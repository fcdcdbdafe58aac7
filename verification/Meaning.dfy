/** What a logical plan means: the rows it delivers and how it ends, with no operators and no state. */
module Meaning {
  import opened Wrappers
  import opened Storage
  import opened Catalog
  import opened Planner
  import opened Transactions
  import opened Aggregation
  import opened GroupKey
  import Sorting

  ghost predicate Enumerates(order: seq<string>, keys: set<string>) {
    && (forall k :: k in order <==> k in keys)
    && forall i, j | 0 <= i < j < |order| :: order[i] != order[j]
  }

  ghost function AnyOrder(keys: set<string>): (order: seq<string>)
    ensures Enumerates(order, keys)
  {
    if keys == {} then []
    else
      var k :| k in keys;
      [k] + AnyOrder(keys - {k})
  }

  /** The order in which the hash map of an aggregation lists its keys: any order at all. */
  type HashOrder = f: set<string> -> seq<string> | forall keys :: Enumerates(f(keys), keys)
    ghost witness ((keys: set<string>) => AnyOrder(keys))

  /** What one query sees: the tables, the transaction statuses and its own transaction and SCN. */
  datatype ExecutionContext = ExecutionContext(
    tables: map<string, seq<Tuple>>,
    vis: Visibility,
    sessionTx: Option<nat>,
    crScn: nat,
    hashOrder: HashOrder)
  {
    predicate Sees(row: Tuple) {
      IsVisible(vis, row.txId, sessionTx, crScn)
    }

    function VisibleRows(rows: seq<Tuple>): seq<Tuple> {
      if rows == [] then []
      else if Sees(rows[0]) then [rows[0]] + VisibleRows(rows[1..])
      else VisibleRows(rows[1..])
    }
  }

  datatype End = Done | Fail(error: Error)

  /** Rows in order, then the end: exhaustion, or the first error. */
  datatype Stream = Stream(rows: seq<Tuple>, end: End) {
    function Prepend(row: Tuple): Stream {
      Stream([row] + rows, end)
    }

    function Tail(): Stream
      requires rows != []
    {
      Stream(rows[1..], end)
    }
  }

  /** Starting an operator either fails or yields a stream. */
  datatype Outcome = Aborted(error: Error) | Started(stream: Stream)

  function ScanStream(ctx: ExecutionContext, table: string, cursor: nat): Stream {
    if table !in ctx.tables then Stream([], Fail(TableNotInStorage(table)))
    else if cursor > |ctx.tables[table]| then Stream([], Done)
    else Stream(ctx.VisibleRows(ctx.tables[table][cursor..]), Done)
  }

  function FilterStream(s: Stream, pred: Expr, schema: Schema): Stream
    decreases |s.rows|
  {
    if s.rows == [] then s
    else
      match Eval(pred, s.rows[0].values, schema)
      case Err(e) => Stream([], Fail(e))
      case Ok(v) =>
        var rest := FilterStream(s.Tail(), pred, schema);
        if v.IsTruthy() then rest.Prepend(s.rows[0]) else rest
  }

  function ProjectStream(s: Stream, exprs: seq<Expr>, schema: Schema): Stream
    decreases |s.rows|
  {
    if s.rows == [] then s
    else
      match EvalAll(exprs, s.rows[0].values, schema)
      case Err(e) => Stream([], Fail(e))
      case Ok(vs) => ProjectStream(s.Tail(), exprs, schema).Prepend(Plain(vs))
  }

  /** Rows are pulled only while wanted, so an error behind the last wanted row never shows. */
  function LimitStream(s: Stream, skip: nat, take: Option<nat>): Stream
    decreases |s.rows|
  {
    if skip > 0 then
      if s.rows == [] then s else LimitStream(s.Tail(), skip - 1, take)
    else if take == Some(0) then Stream([], Done)
    else if s.rows == [] then s
    else
      var left := if take.Some? then Some(take.value - 1) else None;
      LimitStream(s.Tail(), 0, left).Prepend(s.rows[0])
  }

  function SortOutcome(child: Outcome, orderBy: seq<(Expr, bool)>, schema: Schema): Outcome {
    match child
    case Aborted(e) => Aborted(e)
    case Started(s) =>
      if s.end.Fail? then Aborted(s.end.error)
      else
        match Sorting.LibrarySort(s.rows, orderBy, schema)
        case Err(e) => Aborted(e)
        case Ok(sorted) => Started(Stream(sorted, Done))
  }

  function Combine(l: Tuple, r: Tuple): Tuple {
    Plain(l.values + r.values)
  }

  /** The join from inside its inner loop: the current left row against the right rows still to
      come, then the left rows still to come, each against all right rows. */
  function JoinFrom(l: Tuple, rest: seq<Tuple>, left: Stream, right: seq<Tuple>, cond: Option<Expr>, schema: Schema): Stream
    decreases |left.rows|, |rest|
  {
    if rest == [] then
      if left.rows == [] then left
      else JoinFrom(left.rows[0], right, left.Tail(), right, cond, schema)
    else
      var row := Combine(l, rest[0]);
      match cond
      case None => JoinFrom(l, rest[1..], left, right, cond, schema).Prepend(row)
      case Some(c) =>
        match Eval(c, row.values, schema)
        case Err(e) => Stream([], Fail(e))
        case Ok(v) =>
          var more := JoinFrom(l, rest[1..], left, right, cond, schema);
          if v.IsTruthy() then more.Prepend(row) else more
  }

  /** The join before its next left row. */
  function JoinStream(left: Stream, right: seq<Tuple>, cond: Option<Expr>, schema: Schema): Stream {
    if left.rows == [] then left
    else JoinFrom(left.rows[0], right, left.Tail(), right, cond, schema)
  }

  /** Starting a join starts both sides, drains the right one and pulls the first left row. */
  function JoinOutcome(left: Outcome, right: Outcome, cond: Option<Expr>, schema: Schema): Outcome {
    if left.Aborted? then left
    else if right.Aborted? then right
    else if right.stream.end.Fail? then Aborted(right.stream.end.error)
    else if left.stream.rows == [] && left.stream.end.Fail? then Aborted(left.stream.end.error)
    else Started(JoinStream(left.stream, right.stream.rows, cond, schema))
  }

  // Aggregation: each row gets a key and its argument values; each key yields one row.

  datatype KeyedRow = KeyedRow(key: string, groupVals: seq<Value>, args: seq<Value>)

  predicate KnownCalls(calls: seq<AggCall>) {
    forall i | 0 <= i < |calls| :: IsAggregateName(calls[i].func)
  }

  function FirstUnknown(calls: seq<AggCall>): string
    requires !KnownCalls(calls)
  {
    if !IsAggregateName(calls[0].func) then calls[0].func else FirstUnknown(calls[1..])
  }

  /** COUNT(*) and the like are fed the constant 1. */
  function EvalArg(arg: Expr, values: seq<Value>, schema: Schema): Result<Value> {
    if arg.Star? then Ok(Int(1)) else Eval(arg, values, schema)
  }

  function EvalArgs(calls: seq<AggCall>, values: seq<Value>, schema: Schema): (r: Result<seq<Value>>)
    ensures r.Ok? ==> |r.value| == |calls|
    ensures r.Ok? ==> forall i | 0 <= i < |calls| :: EvalArg(calls[i].arg, values, schema) == Ok(r.value[i])
    ensures r.Err? ==> exists i | 0 <= i < |calls| :: EvalArg(calls[i].arg, values, schema) == Err(r.error)
  {
    if calls == [] then Ok([])
    else
      var v :- EvalArg(calls[0].arg, values, schema);
      var vs :- EvalArgs(calls[1..], values, schema);
      Ok([v] + vs)
  }

  function KeyRow(row: Tuple, groupBy: seq<Expr>, calls: seq<AggCall>, schema: Schema): Result<KeyedRow> {
    var groupVals :- EvalAll(groupBy, row.values, schema);
    if !KnownCalls(calls) then Err(PanicUnknownAggregate(FirstUnknown(calls)))
    else
      var args :- EvalArgs(calls, row.values, schema);
      Ok(KeyedRow(MakeGroupKey(groupVals), groupVals, args))
  }

  /** Keys every row, in order; the first failure wins. */
  function KeyRows(rows: seq<Tuple>, groupBy: seq<Expr>, calls: seq<AggCall>, schema: Schema): (r: Result<seq<KeyedRow>>)
    ensures r.Ok? ==> |r.value| == |rows|
    ensures r.Ok? ==> forall i | 0 <= i < |rows| :: KeyRow(rows[i], groupBy, calls, schema) == Ok(r.value[i])
  {
    if rows == [] then Ok([])
    else
      var k :- KeyRow(rows[0], groupBy, calls, schema);
      var ks :- KeyRows(rows[1..], groupBy, calls, schema);
      Ok([k] + ks)
  }

  function Keys(keyed: seq<KeyedRow>): set<string> {
    set i | 0 <= i < |keyed| :: keyed[i].key
  }

  /** The rows of one group, in order. */
  function Members(keyed: seq<KeyedRow>, key: string): (m: seq<KeyedRow>)
    ensures m == [] <==> key !in Keys(keyed)
    ensures forall i | 0 <= i < |m| :: m[i] in keyed && m[i].key == key
  {
    if keyed == [] then []
    else
      var front := Members(keyed[..|keyed| - 1], key);
      var last := keyed[|keyed| - 1];
      assert keyed == keyed[..|keyed| - 1] + [last];
      assert Keys(keyed) == Keys(keyed[..|keyed| - 1]) + {last.key};
      if last.key == key then front + [last] else front
  }

  function Argument(members: seq<KeyedRow>, i: nat): seq<Value>
    requires forall m | m in members :: i < |m.args|
  {
    seq(|members|, j requires 0 <= j < |members| => members[j].args[i])
  }

  predicate ArgsFit(keyed: seq<KeyedRow>, calls: seq<AggCall>) {
    forall i | 0 <= i < |keyed| :: |keyed[i].args| == |calls|
  }

  /** The aggregate states of one group: each call folded over the group's rows, in order. */
  function GroupStates(members: seq<KeyedRow>, calls: seq<AggCall>): seq<AggState>
    requires KnownCalls(calls) && ArgsFit(members, calls)
  {
    seq(|calls|, i requires 0 <= i < |calls| => Fold(StartState(calls[i].func), Argument(members, i)))
  }

  function Finals(states: seq<AggState>): seq<Value> {
    seq(|states|, i requires 0 <= i < |states| => states[i].Finalize())
  }

  /** A group's output: the group values of its last row, then the aggregates. */
  function GroupRow(members: seq<KeyedRow>, calls: seq<AggCall>): Tuple
    requires members != [] && KnownCalls(calls) && ArgsFit(members, calls)
  {
    Plain(members[|members| - 1].groupVals + Finals(GroupStates(members, calls)))
  }

  lemma MembersFit(keyed: seq<KeyedRow>, key: string, calls: seq<AggCall>)
    requires ArgsFit(keyed, calls)
    ensures ArgsFit(Members(keyed, key), calls)
  {
    var m := Members(keyed, key);
    forall i | 0 <= i < |m| ensures |m[i].args| == |calls| {
      assert m[i] in keyed;
    }
  }

  function GroupRows(order: seq<string>, keyed: seq<KeyedRow>, calls: seq<AggCall>): (rows: seq<Tuple>)
    requires KnownCalls(calls) && ArgsFit(keyed, calls)
    requires forall k | k in order :: k in Keys(keyed)
    ensures |rows| == |order|
  {
    if order == [] then []
    else
      MembersFit(keyed, order[0], calls);
      [GroupRow(Members(keyed, order[0]), calls)] + GroupRows(order[1..], keyed, calls)
  }

  function EmptyStates(calls: seq<AggCall>): (states: seq<AggState>)
    requires KnownCalls(calls)
    ensures |states| == |calls|
    ensures forall i | 0 <= i < |calls| :: states[i] == StartState(calls[i].func)
  {
    seq(|calls|, i requires 0 <= i < |calls| => StartState(calls[i].func))
  }

  lemma KeyedRowsFit(rows: seq<Tuple>, groupBy: seq<Expr>, calls: seq<AggCall>, schema: Schema)
    requires KeyRows(rows, groupBy, calls, schema).Ok?
    ensures ArgsFit(KeyRows(rows, groupBy, calls, schema).value, calls)
    ensures rows != [] ==> KnownCalls(calls)
  {
    var keyed := KeyRows(rows, groupBy, calls, schema).value;
    forall i | 0 <= i < |keyed| ensures |keyed[i].args| == |calls| {
      assert KeyRow(rows[i], groupBy, calls, schema) == Ok(keyed[i]);
    }
    if rows != [] {
      assert KeyRow(rows[0], groupBy, calls, schema) == Ok(keyed[0]);
    }
  }

  function AggOutcome(child: Outcome, groupBy: seq<Expr>, calls: seq<AggCall>, schema: Schema, hashOrder: HashOrder): Outcome {
    match child
    case Aborted(e) => Aborted(e)
    case Started(s) =>
      match KeyRows(s.rows, groupBy, calls, schema)
      case Err(e) => Aborted(e)
      case Ok(keyed) =>
        if s.end.Fail? then Aborted(s.end.error)
        else if s.rows == [] then
          if groupBy != [] then Started(Stream([], Done))
          else if !KnownCalls(calls) then Aborted(PanicUnknownAggregate(FirstUnknown(calls)))
          else Started(Stream([Plain(Finals(EmptyStates(calls)))], Done))
        else
          KeyedRowsFit(s.rows, groupBy, calls, schema);
          Started(Stream(GroupRows(hashOrder(Keys(keyed)), keyed, calls), Done))
  }

  function Exprs<T>(items: seq<(Expr, T)>): (exprs: seq<Expr>)
    ensures |exprs| == |items| && forall i | 0 <= i < |items| :: exprs[i] == items[i].0
  {
    seq(|items|, i requires 0 <= i < |items| => items[i].0)
  }

  function ValueOr(o: Option<nat>, default: nat): nat {
    if o.Some? then o.value else default
  }

  function FilterOutcome(child: Outcome, pred: Expr, schema: Schema): Outcome {
    match child
    case Aborted(e) => Aborted(e)
    case Started(s) => Started(FilterStream(s, pred, schema))
  }

  function ProjectOutcome(child: Outcome, exprs: seq<Expr>, schema: Schema): Outcome {
    match child
    case Aborted(e) => Aborted(e)
    case Started(s) => Started(ProjectStream(s, exprs, schema))
  }

  function LimitOutcome(child: Outcome, limit: Option<nat>, offset: Option<nat>): Outcome {
    match child
    case Aborted(e) => Aborted(e)
    case Started(s) => Started(LimitStream(s, ValueOr(offset, 0), limit))
  }

  function Denote(plan: LogicalPlan, catalog: CatalogMap, ctx: ExecutionContext): Outcome {
    match plan
    case DummyScan => Started(Stream([Plain([])], Done))
    case Scan(tableName, _) => Started(ScanStream(ctx, tableName, 0))
    case Filter(child, pred) =>
      (match PlanSchema(child, catalog)
       case Err(e) => Aborted(e)
       case Ok(schema) => FilterOutcome(Denote(child, catalog, ctx), pred, schema))
    case Project(child, exprs) =>
      (match PlanSchema(child, catalog)
       case Err(e) => Aborted(e)
       case Ok(schema) => ProjectOutcome(Denote(child, catalog, ctx), Exprs(exprs), schema))
    case Limit(child, limit, offset) => LimitOutcome(Denote(child, catalog, ctx), limit, offset)
    case Sort(child, orderBy) =>
      (match PlanSchema(child, catalog)
       case Err(e) => Aborted(e)
       case Ok(schema) => SortOutcome(Denote(child, catalog, ctx), orderBy, schema))
    case Join(left, right, condition) =>
      (match PlanSchema(plan, catalog)
       case Err(e) => Aborted(e)
       case Ok(schema) => JoinOutcome(Denote(left, catalog, ctx), Denote(right, catalog, ctx), condition, schema))
    case Agg(child, groupBy, aggFuncs) =>
      (match PlanSchema(child, catalog)
       case Err(e) => Aborted(e)
       case Ok(schema) => AggOutcome(Denote(child, catalog, ctx), groupBy, aggFuncs, schema, ctx.hashOrder))
  }

  /** One unfolding of Denote, for proofs in which Denote is hidden. */
  lemma DenoteUnfolds(plan: LogicalPlan, catalog: CatalogMap, ctx: ExecutionContext)
    ensures plan.DummyScan? ==> Denote(plan, catalog, ctx) == Started(Stream([Plain([])], Done))
    ensures plan.Limit? ==> Denote(plan, catalog, ctx) == LimitOutcome(Denote(plan.child, catalog, ctx), plan.limit, plan.offset)
    ensures plan.Join? && PlanSchema(plan, catalog).Ok? ==>
              Denote(plan, catalog, ctx) ==
              JoinOutcome(Denote(plan.left, catalog, ctx), Denote(plan.right, catalog, ctx), plan.condition, PlanSchema(plan, catalog).value)
    ensures (plan.Filter? || plan.Project? || plan.Sort? || plan.Agg?) && PlanSchema(plan.child, catalog).Ok? ==>
              var child, schema := Denote(plan.child, catalog, ctx), PlanSchema(plan.child, catalog).value;
              Denote(plan, catalog, ctx) ==
              if plan.Filter? then FilterOutcome(child, plan.pred, schema)
              else if plan.Project? then ProjectOutcome(child, Exprs(plan.exprs), schema)
              else if plan.Sort? then SortOutcome(child, plan.orderBy, schema)
              else AggOutcome(child, plan.groupBy, plan.aggFuncs, schema, ctx.hashOrder)
  {
  }

  /** Whether operators can be built for a plan: every schema they capture must exist. */
  function Buildable(plan: LogicalPlan, catalog: CatalogMap): Result<()>
    decreases plan, 0
  {
    match plan
    case DummyScan => Ok(())
    case Scan(_, _) => Ok(())
    case Filter(child, _) => BuildableWithSchema(child, catalog)
    case Project(child, _) => BuildableWithSchema(child, catalog)
    case Limit(child, _, _) => Buildable(child, catalog)
    case Sort(child, _) => BuildableWithSchema(child, catalog)
    case Join(left, right, _) =>
      var _ :- Buildable(left, catalog);
      var _ :- Buildable(right, catalog);
      var _ :- PlanSchema(plan, catalog);
      Ok(())
    case Agg(child, _, _) => BuildableWithSchema(child, catalog)
  }

  function BuildableWithSchema(child: LogicalPlan, catalog: CatalogMap): Result<()>
    decreases child, 1
  {
    var _ :- Buildable(child, catalog);
    var _ :- PlanSchema(child, catalog);
    Ok(())
  }

  datatype ResultSet = ResultSet(schema: Schema, rows: seq<Tuple>)

  /** The answer to a query: build, start, schema, rows; the first failure wins. */
  function QueryResult(plan: LogicalPlan, catalog: CatalogMap, ctx: ExecutionContext): Result<ResultSet> {
    var _ :- Buildable(plan, catalog);
    match Denote(plan, catalog, ctx)
    case Aborted(e) => Err(e)
    case Started(s) =>
      var schema :- PlanSchema(plan, catalog);
      match s.end
      case Done => Ok(ResultSet(schema, s.rows))
      case Fail(e) => Err(e)
  }
}
