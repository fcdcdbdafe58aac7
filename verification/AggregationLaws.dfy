/** What an aggregation delivers, over the meaning of its child: one row per group, or the first failure. */
module AggregationLaws {
  import opened Wrappers
  import opened Storage
  import opened Catalog
  import opened Planner
  import opened Aggregation
  import opened GroupKey
  import opened Meaning
  import opened Grouping
  import opened GroupingLaws
  import opened GroupedQuery
  import opened PlanLaws

  ghost predicate ArgFailsAt(calls: seq<AggCall>, row: Tuple, schema: Schema, k: nat, e: Error) {
    && k < |calls| && calls[k].arg != Star && Eval(calls[k].arg, row.values, schema) == Err(e)
    && forall i | 0 <= i < k :: calls[i].arg == Star || Eval(calls[i].arg, row.values, schema).Ok?
  }

  ghost predicate UnknownAt(calls: seq<AggCall>, k: nat, e: Error) {
    && k < |calls| && !IsAggregateName(calls[k].func) && e == PanicUnknownAggregate(calls[k].func)
    && forall i | 0 <= i < k :: IsAggregateName(calls[i].func)
  }

  /** How a row can make an aggregation fail: in a grouping expression, else by an unknown aggregate, else
      in an argument; each time the first one counts. */
  ghost predicate RowFails(row: Tuple, groupBy: seq<Expr>, calls: seq<AggCall>, schema: Schema, e: Error) {
    || (exists k: nat :: FailsAt(groupBy, row, schema, k, e))
    || ((exists vals :: Evaluates(groupBy, row, schema, vals)) && (exists k: nat :: UnknownAt(calls, k, e)))
    || ((exists vals :: Evaluates(groupBy, row, schema, vals)) && KnownCalls(calls)
        && (exists k: nat :: ArgFailsAt(calls, row, schema, k, e)))
  }

  lemma {:induction false} FirstUnknownIs(calls: seq<AggCall>)
    requires !KnownCalls(calls)
    ensures exists k: nat :: UnknownAt(calls, k, PanicUnknownAggregate(FirstUnknown(calls)))
  {
    var e := PanicUnknownAggregate(FirstUnknown(calls));
    if !IsAggregateName(calls[0].func) {
      assert UnknownAt(calls, 0, e);
    } else {
      FirstUnknownIs(calls[1..]);
      var k: nat :| UnknownAt(calls[1..], k, e);
      assert forall i | 0 < i <= k :: calls[i] == calls[1..][i - 1];
      assert UnknownAt(calls, k + 1, e);
    }
  }

  lemma {:induction false} ArgsFailFirst(calls: seq<AggCall>, row: Tuple, schema: Schema)
    requires EvalArgs(calls, row.values, schema).Err?
    ensures exists k: nat :: ArgFailsAt(calls, row, schema, k, EvalArgs(calls, row.values, schema).error)
  {
    hide Eval;
    var e := EvalArgs(calls, row.values, schema).error;
    if EvalArg(calls[0].arg, row.values, schema).Err? {
      assert ArgFailsAt(calls, row, schema, 0, e);
    } else {
      ArgsFailFirst(calls[1..], row, schema);
      var k: nat :| ArgFailsAt(calls[1..], row, schema, k, e);
      assert forall i | 0 < i <= k :: calls[i] == calls[1..][i - 1];
      assert ArgFailsAt(calls, row, schema, k + 1, e);
    }
  }

  lemma KeyRowFails(row: Tuple, groupBy: seq<Expr>, calls: seq<AggCall>, schema: Schema)
    requires KeyRow(row, groupBy, calls, schema).Err?
    ensures RowFails(row, groupBy, calls, schema, KeyRow(row, groupBy, calls, schema).error)
  {
    hide EvalAll, EvalArgs, MakeGroupKey, FailsAt, Evaluates, ArgFailsAt, UnknownAt, FirstUnknown, KnownCalls;
    EvalAllIff(groupBy, row, schema);
    if EvalAll(groupBy, row.values, schema).Ok? {
      if KnownCalls(calls) {
        ArgsFailFirst(calls, row, schema);
      } else {
        FirstUnknownIs(calls);
      }
    }
  }

  lemma {:induction false} KeyRowsFail(rows: seq<Tuple>, groupBy: seq<Expr>, calls: seq<AggCall>, schema: Schema) returns (n: nat)
    requires KeyRows(rows, groupBy, calls, schema).Err?
    ensures n < |rows| && KeyRow(rows[n], groupBy, calls, schema) == Err(KeyRows(rows, groupBy, calls, schema).error)
    ensures forall i | 0 <= i < n :: KeyRow(rows[i], groupBy, calls, schema).Ok?
  {
    hide KeyRow;
    if KeyRow(rows[0], groupBy, calls, schema).Err? {
      return 0;
    }
    var m := KeyRowsFail(rows[1..], groupBy, calls, schema);
    n := m + 1;
    assert forall i | 0 < i < n :: rows[i] == rows[1..][i - 1];
  }

  /** The row can be grouped and all arguments evaluate. */
  ghost predicate RowCounts(row: Tuple, groupBy: seq<Expr>, calls: seq<AggCall>, schema: Schema) {
    && (exists vals :: Evaluates(groupBy, row, schema, vals))
    && KnownCalls(calls)
    && forall k | 0 <= k < |calls| :: calls[k].arg == Star || Eval(calls[k].arg, row.values, schema).Ok?
  }

  lemma KeyRowCounts(row: Tuple, groupBy: seq<Expr>, calls: seq<AggCall>, schema: Schema)
    requires KeyRow(row, groupBy, calls, schema).Ok?
    ensures RowCounts(row, groupBy, calls, schema)
  {
    hide EvalAll, Eval, MakeGroupKey;
    EvalAllIff(groupBy, row, schema);
    hide Evaluates;
    var args := EvalArgs(calls, row.values, schema).value;
    assert forall k | 0 <= k < |calls| :: EvalArg(calls[k].arg, row.values, schema) == Ok(args[k]);
  }

  /** What the aggregates are over no rows at all. */
  ghost predicate EmptyTotals(values: seq<Value>, calls: seq<AggCall>) {
    |values| == |calls| && forall i | 0 <= i < |calls| :: values[i] == if calls[i].func == "count" then Int(0) else Null
  }

  /** One row of an aggregation: the grouping values of the last row of its group, then each aggregate over
      the values of its argument in the group. */
  ghost predicate GroupsTo(out: seq<Tuple>, order: seq<string>, rows: seq<Tuple>, groupBy: seq<Expr>, calls: seq<AggCall>, schema: Schema) {
    && |out| == |order|
    && forall i | 0 <= i < |order| ::
         out[i] == Unstamped(out[i].values) && GroupOutput(out[i].values, GroupOf(rows, order[i], groupBy, schema), groupBy, calls, schema)
  }

  lemma GroupRowsAreOutput(order: seq<string>, rows: seq<Tuple>, keyed: seq<KeyedRow>, groupBy: seq<Expr>, calls: seq<AggCall>, schema: Schema)
    requires KeyedAs(rows, keyed, groupBy, calls, schema) && KnownCalls(calls) && ArgsFit(keyed, calls)
    requires forall k | k in order :: k in Keys(keyed)
    ensures GroupsTo(GroupRows(order, keyed, calls), order, rows, groupBy, calls, schema)
  {
    hide KeyedAs, GroupRows, GroupRow, Keys, GroupOutput, ArgsFit, KnownCalls, GroupOf;
    var out := GroupRows(order, keyed, calls);
    forall i | 0 <= i < |order|
      ensures out[i] == Unstamped(out[i].values) && GroupOutput(out[i].values, GroupOf(rows, order[i], groupBy, schema), groupBy, calls, schema)
    {
      GroupRowsAt(order, keyed, calls, i);
      MembersAreGroup(rows, keyed, order[i], groupBy, calls, schema);
      assert order[i] in order;
      GroupRowIsOutput(GroupOf(rows, order[i], groupBy, schema), Members(keyed, order[i]), groupBy, calls, schema);
      GroupRowIsPlain(Members(keyed, order[i]), calls);
    }
  }

  lemma GroupRowIsPlain(members: seq<KeyedRow>, calls: seq<AggCall>)
    requires members != [] && KnownCalls(calls) && ArgsFit(members, calls)
    ensures GroupRow(members, calls) == Unstamped(GroupRow(members, calls).values)
  {
  }

  lemma EmptyTotalsAre(calls: seq<AggCall>)
    requires KnownCalls(calls)
    ensures EmptyTotals(Finals(EmptyStates(calls)), calls)
  {
  }

  /** An aggregation starts if and only if its child can be read to its end and every row of it counts, or
      there are no rows and, without grouping columns, every aggregate is known. It then delivers one row per
      group, in hash order; without rows none, or for a global aggregation one. It fails as the first row
      that fails does, else as its child does. */
  lemma AggDelivers(child: LogicalPlan, groupBy: seq<Expr>, calls: seq<AggCall>, catalog: CatalogMap, ctx: ExecutionContext,
                    schema: Schema, rows: seq<Tuple>, end: End) returns (out: seq<Tuple>, n: nat, e: Error)
    requires PlanSchema(child, catalog) == Ok(schema) && Delivers(child, catalog, ctx, rows, end)
    ensures n <= |rows| && forall i | 0 <= i < n :: RowCounts(rows[i], groupBy, calls, schema)
    ensures n < |rows| ==> RowFails(rows[n], groupBy, calls, schema, e) && FailsToStart(Agg(child, groupBy, calls), catalog, ctx, e)
    ensures n == |rows| && end.Fail? ==> FailsToStart(Agg(child, groupBy, calls), catalog, ctx, end.error)
    ensures n == |rows| && end.Done? && rows != [] ==>
              && Delivers(Agg(child, groupBy, calls), catalog, ctx, out, Done)
              && GroupsTo(out, ctx.hashOrder(KeysOf(rows, groupBy, schema)), rows, groupBy, calls, schema)
    ensures end.Done? && rows == [] && groupBy != [] ==> Delivers(Agg(child, groupBy, calls), catalog, ctx, [], Done)
    ensures end.Done? && rows == [] && groupBy == [] ==>
              if KnownCalls(calls) then
                |out| == 1 && out[0] == Unstamped(out[0].values) && EmptyTotals(out[0].values, calls)
                && Delivers(Agg(child, groupBy, calls), catalog, ctx, out, Done)
              else (exists k: nat :: UnknownAt(calls, k, e)) && FailsToStart(Agg(child, groupBy, calls), catalog, ctx, e)
  {
    hide Denote, PlanSchema, KeyRow, GroupRows, GroupsTo, RowFails, RowCounts, KeysOf, Keys, EmptyTotals, Finals, EmptyStates, UnknownAt, ArgsFit, KnownCalls, FirstUnknown;
    DenoteUnfolds(Agg(child, groupBy, calls), catalog, ctx);
    out, n, e := [], |rows|, StarHasNoType;
    var keyed := KeyRows(rows, groupBy, calls, schema);
    if keyed.Err? {
      n := KeyRowsFail(rows, groupBy, calls, schema);
      e := keyed.error;
      KeyRowFails(rows[n], groupBy, calls, schema);
    } else if rows == [] && groupBy == [] {
      if KnownCalls(calls) {
        EmptyTotalsAre(calls);
        out := [Plain(Finals(EmptyStates(calls)))];
      } else {
        FirstUnknownIs(calls);
        e := PanicUnknownAggregate(FirstUnknown(calls));
      }
    } else if rows != [] {
      KeyedRowsFit(rows, groupBy, calls, schema);
      KeysAreKeys(rows, keyed.value, groupBy, calls, schema);
      var order := ctx.hashOrder(Keys(keyed.value));
      GroupRowsAreOutput(order, rows, keyed.value, groupBy, calls, schema);
      out := GroupRows(order, keyed.value, calls);
    }
    forall i | 0 <= i < n ensures RowCounts(rows[i], groupBy, calls, schema) {
      assert KeyRow(rows[i], groupBy, calls, schema).Ok?;
      KeyRowCounts(rows[i], groupBy, calls, schema);
    }
  }
}
