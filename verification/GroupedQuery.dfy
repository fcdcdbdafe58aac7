/** The aggregate rewrite preserves meaning: the rewritten plan delivers, for each group, the select
    items read directly over the rows of the group. */
module GroupedQuery {
  import opened Wrappers
  import opened Storage
  import opened Catalog
  import opened Planner
  import opened Aggregation
  import opened GroupKey
  import opened Meaning
  import opened Grouping
  import opened AggregateRewrite

  // The direct reading of a select item over a group of rows.

  /** The values of an argument over a group of rows; COUNT(*) and the like take 1 for each row. */
  function ArgValues(arg: Expr, group: seq<Tuple>, schema: Schema): (r: Result<seq<Value>>)
    ensures r.Ok? ==> |r.value| == |group|
  {
    if group == [] then Ok([])
    else
      var v :- if arg == Star then Ok(Int(1)) else Eval(arg, group[0].values, schema);
      var vs :- ArgValues(arg, group[1..], schema);
      Ok([v] + vs)
  }

  /** An aggregate call is the aggregate of its argument over the group; a plain column is read on
      the group's last row. */
  function EvalOverGroup(expr: Expr, group: seq<Tuple>, schema: Schema): Result<Value> {
    match expr
    case FuncCall(func, arg) =>
      if IsAggregateName(func) then
        var vals :- ArgValues(arg, group, schema);
        Ok(Aggregate(func, vals))
      else Err(AggregateNotEvaluable(func))
    case BinaryOp(op, left, right) =>
      var l :- EvalOverGroup(left, group, schema);
      var r :- EvalOverGroup(right, group, schema);
      EvalBinaryOp(op, l, r)
    case _ =>
      if group == [] then Eval(expr, [], Schema([]))
      else Eval(expr, group[|group| - 1].values, schema)
  }

  function EvalItemsOverGroup(items: Items, group: seq<Tuple>, schema: Schema): Result<seq<Value>> {
    if items == [] then Ok([])
    else
      var v :- EvalOverGroup(items[0].0, group, schema);
      var vs :- EvalItemsOverGroup(items[1..], group, schema);
      Ok([v] + vs)
  }

  /** One output row per group, in order; the first failure ends the stream. */
  function GroupedStream(groups: seq<seq<Tuple>>, items: Items, schema: Schema): Stream {
    if groups == [] then Stream([], Done)
    else
      match EvalItemsOverGroup(items, groups[0], schema)
      case Err(e) => Stream([], Fail(e))
      case Ok(vs) => GroupedStream(groups[1..], items, schema).Prepend(Plain(vs))
  }

  predicate InGroup(row: Tuple, key: string, groupBy: seq<Expr>, schema: Schema) {
    var g := EvalAll(groupBy, row.values, schema);
    g.Ok? && MakeGroupKey(g.value) == key
  }

  function GroupOf(rows: seq<Tuple>, key: string, groupBy: seq<Expr>, schema: Schema): seq<Tuple> {
    if rows == [] then []
    else
      GroupOf(rows[..|rows| - 1], key, groupBy, schema) +
      if InGroup(rows[|rows| - 1], key, groupBy, schema) then [rows[|rows| - 1]] else []
  }

  function GroupsOf(order: seq<string>, rows: seq<Tuple>, groupBy: seq<Expr>, schema: Schema): (groups: seq<seq<Tuple>>)
    ensures |groups| == |order|
  {
    if order == [] then []
    else [GroupOf(rows, order[0], groupBy, schema)] + GroupsOf(order[1..], rows, groupBy, schema)
  }

  // Names: when each name of a select item finds its own column.

  function Names(groupBy: seq<Expr>, calls: seq<AggCall>): (names: seq<string>)
    ensures |names| == |groupBy| + |calls|
    ensures forall i | 0 <= i < |groupBy| :: names[i] == ExprName(groupBy[i])
    ensures forall i | 0 <= i < |calls| :: names[|groupBy| + i] == calls[i].name
  {
    seq(|groupBy|, i requires 0 <= i < |groupBy| => ExprName(groupBy[i])) +
    seq(|calls|, i requires 0 <= i < |calls| => calls[i].name)
  }

  /** Lookup by name reads only the names of the columns. */
  predicate NameMatches(colName: string, name: string) {
    if '.' in name then colName == name else BaseName(colName) == name
  }

  /** No generated name is found at a column before its own. */
  predicate NamesClear(groupBy: seq<Expr>, calls: seq<AggCall>) {
    var names := Names(groupBy, calls);
    forall i, j | |groupBy| <= i < |names| && 0 <= j < i :: !NameMatches(names[j], names[i])
  }

  /** Different aggregate calls have different generated names. */
  predicate NamedApart(source: seq<(string, Expr)>) {
    forall i, j | 0 <= i < |source| && 0 <= j < |source| ::
      CallName(source[i].0, source[i].1) == CallName(source[j].0, source[j].1) ==> source[i] == source[j]
  }

  /** A plain column resolves, in the Agg output, to a grouping column that reads the same input column. */
  predicate GroupedColumn(name: string, groupBy: seq<Expr>, schema: Schema) {
    exists j :: 0 <= j < |groupBy| && groupBy[j].ColRef? && NameMatches(ExprName(groupBy[j]), name)
                && (forall k | 0 <= k < j :: !NameMatches(ExprName(groupBy[k]), name))
                && schema.FindColIdx(groupBy[j].name) == schema.FindColIdx(name)
                && schema.FindColIdx(name).Some?
  }

  predicate ColumnsGrouped(expr: Expr, groupBy: seq<Expr>, schema: Schema) {
    match expr
    case ColRef(name) => GroupedColumn(name, groupBy, schema)
    case BinaryOp(_, left, right) =>
      ColumnsGrouped(left, groupBy, schema) && ColumnsGrouped(right, groupBy, schema)
    case _ => true
  }

  lemma {:induction false} BaseOfPlainName(name: string)
    requires '.' !in name
    ensures BaseName(name) == name
  {
    if name != "" {
      BaseOfPlainName(name[..|name| - 1]);
    }
  }

  /** The output schema has the names of the grouping expressions, then the generated names. */
  ghost predicate AggOutput(out: Schema, groupBy: seq<Expr>, calls: seq<AggCall>) {
    && |out.columns| == |groupBy| + |calls|
    && forall i | 0 <= i < |out.columns| :: out.columns[i].name == Names(groupBy, calls)[i]
  }

  lemma CallFindsItsColumn(out: Schema, groupBy: seq<Expr>, calls: seq<AggCall>, i: nat)
    requires AggOutput(out, groupBy, calls) && NamesClear(groupBy, calls) && i < |calls|
    ensures out.FindColIdx(calls[i].name) == Some(|groupBy| + i)
  {
    var names := Names(groupBy, calls);
    var own := |groupBy| + i;
    if '.' !in names[own] {
      BaseOfPlainName(names[own]);
    }
    assert Matches(out.columns[own], calls[i].name);
    forall j | 0 <= j < own ensures !Matches(out.columns[j], calls[i].name) {
      assert !NameMatches(names[j], names[own]);
    }
  }

  // One group: its keyed rows, its tuples and its output row.

  ghost predicate KeyedAs(rows: seq<Tuple>, keyed: seq<KeyedRow>, groupBy: seq<Expr>, calls: seq<AggCall>, schema: Schema) {
    && |rows| == |keyed|
    && forall i | 0 <= i < |rows| :: KeyRow(rows[i], groupBy, calls, schema) == Ok(keyed[i])
  }

  lemma KeyTellsGroup(row: Tuple, k: KeyedRow, key: string, groupBy: seq<Expr>, calls: seq<AggCall>, schema: Schema)
    requires KeyRow(row, groupBy, calls, schema) == Ok(k)
    ensures InGroup(row, key, groupBy, schema) <==> k.key == key
  {
    hide EvalAll, EvalArgs, MakeGroupKey;
  }

  lemma {:induction false} MembersAreGroup(rows: seq<Tuple>, keyed: seq<KeyedRow>, key: string,
                                           groupBy: seq<Expr>, calls: seq<AggCall>, schema: Schema)
    requires KeyedAs(rows, keyed, groupBy, calls, schema)
    ensures KeyedAs(GroupOf(rows, key, groupBy, schema), Members(keyed, key), groupBy, calls, schema)
    decreases |rows|
  {
    hide KeyRow, InGroup, Keys;
    if rows != [] {
      var n := |rows| - 1;
      MembersAreGroup(rows[..n], keyed[..n], key, groupBy, calls, schema);
      KeyTellsGroup(rows[n], keyed[n], key, groupBy, calls, schema);
    }
  }

  lemma {:induction false} ArgColumn(arg: Expr, group: seq<Tuple>, vals: seq<Value>, schema: Schema)
    requires |group| == |vals|
    requires forall i | 0 <= i < |group| :: EvalArg(arg, group[i].values, schema) == Ok(vals[i])
    ensures ArgValues(arg, group, schema) == Ok(vals)
  {
    hide Eval;
    if group != [] {
      ArgColumn(arg, group[1..], vals[1..], schema);
      assert [vals[0]] + vals[1..] == vals;
    }
  }

  /** The output row of one group, with the facts the rewrite relies on. */
  ghost predicate GroupOutput(values: seq<Value>, group: seq<Tuple>, groupBy: seq<Expr>, calls: seq<AggCall>, schema: Schema) {
    && |values| == |groupBy| + |calls|
    && (groupBy != [] ==> group != [])
    && (forall j | 0 <= j < |groupBy| :: Eval(groupBy[j], group[|group| - 1].values, schema) == Ok(values[j]))
    && (forall i | 0 <= i < |calls| ::
          && IsAggregateName(calls[i].func)
          && ArgValues(calls[i].arg, group, schema).Ok?
          && values[|groupBy| + i] == Aggregate(calls[i].func, ArgValues(calls[i].arg, group, schema).value))
  }

  lemma MemberArgs(group: seq<Tuple>, members: seq<KeyedRow>, groupBy: seq<Expr>, calls: seq<AggCall>, schema: Schema, i: nat)
    requires KeyedAs(group, members, groupBy, calls, schema) && i < |calls| && ArgsFit(members, calls)
    ensures ArgValues(calls[i].arg, group, schema) == Ok(Argument(members, i))
  {
    var vals := Argument(members, i);
    forall j | 0 <= j < |group| ensures EvalArg(calls[i].arg, group[j].values, schema) == Ok(vals[j]) {
      assert KeyRow(group[j], groupBy, calls, schema) == Ok(members[j]);
    }
    ArgColumn(calls[i].arg, group, vals, schema);
  }

  lemma GroupRowParts(members: seq<KeyedRow>, calls: seq<AggCall>)
    requires members != [] && KnownCalls(calls) && ArgsFit(members, calls)
    ensures var values, keys := GroupRow(members, calls).values, members[|members| - 1].groupVals;
            && |values| == |keys| + |calls|
            && (forall j | 0 <= j < |keys| :: values[j] == keys[j])
            && forall i | 0 <= i < |calls| :: values[|keys| + i] == Aggregate(calls[i].func, Argument(members, i))
  {
    hide Fold, Argument, IsAggregateName;
    assert forall i | 0 <= i < |calls| :: Finals(GroupStates(members, calls))[i] == Aggregate(calls[i].func, Argument(members, i));
  }

  lemma GroupRowIsOutput(group: seq<Tuple>, members: seq<KeyedRow>, groupBy: seq<Expr>, calls: seq<AggCall>, schema: Schema)
    requires KeyedAs(group, members, groupBy, calls, schema) && members != []
    requires KnownCalls(calls) && ArgsFit(members, calls)
    ensures GroupOutput(GroupRow(members, calls).values, group, groupBy, calls, schema)
  {
    hide Eval, EvalArgs, Fold, GroupRow, ArgValues, Argument, Aggregate, ArgsFit, IsAggregateName, MakeGroupKey;
    var last := members[|members| - 1];
    assert KeyRow(group[|group| - 1], groupBy, calls, schema) == Ok(last);
    GroupRowParts(members, calls);
    hide KeyRow;
    forall i | 0 <= i < |calls| ensures ArgValues(calls[i].arg, group, schema) == Ok(Argument(members, i)) {
      MemberArgs(group, members, groupBy, calls, schema, i);
    }
  }

  lemma EmptyGroupIsOutput(calls: seq<AggCall>, schema: Schema)
    requires KnownCalls(calls)
    ensures GroupOutput(Finals(EmptyStates(calls)), [], [], calls, schema)
  {
  }

  // Select items.

  /** All aggregate calls of the expression are in the list, each as itself. */
  predicate CallsListed(expr: Expr, calls: seq<AggCall>) {
    forall c | c in CallsIn(expr) :: (exists i :: 0 <= i < |calls| && calls[i] == AggCall(c.0, c.1, CallName(c.0, c.1)))
  }

  lemma {:induction false} RewrittenExprMeans(expr: Expr, values: seq<Value>, out: Schema, group: seq<Tuple>,
                                              groupBy: seq<Expr>, calls: seq<AggCall>, schema: Schema)
    requires AggOutput(out, groupBy, calls) && NamesClear(groupBy, calls)
    requires GroupOutput(values, group, groupBy, calls, schema)
    requires CallsListed(expr, calls) && ColumnsGrouped(expr, groupBy, schema)
    ensures Eval(Extracted(expr, []).0, values, out) == EvalOverGroup(expr, group, schema)
    decreases expr
  {
    hide CallName, NamesClear, AggOutput, GroupOutput, EvalBinaryOp;
    match expr
    case FuncCall(func, arg) =>
      if IsAggregateName(func) {
        assert (func, arg) in CallsIn(expr);
        var i :| 0 <= i < |calls| && calls[i] == AggCall(func, arg, CallName(func, arg));
        CallFindsItsColumn(out, groupBy, calls, i);
        CallReadsAggregate(values, group, groupBy, calls, schema, i);
      }
    case ColRef(name) =>
      PlainColumnMeans(name, values, out, group, groupBy, calls, schema);
    case BinaryOp(op, left, right) =>
      assert forall c | c in CallsIn(left) :: c in CallsIn(expr);
      assert forall c | c in CallsIn(right) :: c in CallsIn(expr);
      RewrittenExprMeans(left, values, out, group, groupBy, calls, schema);
      RewrittenExprMeans(right, values, out, group, groupBy, calls, schema);
      RewriteIgnoresCalls(right, Extracted(left, []).1, []);
    case _ =>
  }

  lemma CallReadsAggregate(values: seq<Value>, group: seq<Tuple>, groupBy: seq<Expr>, calls: seq<AggCall>, schema: Schema, i: nat)
    requires GroupOutput(values, group, groupBy, calls, schema) && i < |calls|
    ensures |groupBy| + i < |values| && IsAggregateName(calls[i].func)
    ensures EvalOverGroup(FuncCall(calls[i].func, calls[i].arg), group, schema) == Ok(values[|groupBy| + i])
  {
    hide Fold, Eval;
  }

  lemma PlainColumnMeans(name: string, values: seq<Value>, out: Schema, group: seq<Tuple>,
                         groupBy: seq<Expr>, calls: seq<AggCall>, schema: Schema)
    requires AggOutput(out, groupBy, calls)
    requires GroupOutput(values, group, groupBy, calls, schema)
    requires GroupedColumn(name, groupBy, schema)
    ensures Eval(ColRef(name), values, out) == EvalOverGroup(ColRef(name), group, schema)
  {
    hide Aggregate, IsAggregateName;
    var names := Names(groupBy, calls);
    var j :| 0 <= j < |groupBy| && groupBy[j].ColRef? && NameMatches(ExprName(groupBy[j]), name)
             && (forall k | 0 <= k < j :: !NameMatches(ExprName(groupBy[k]), name))
             && schema.FindColIdx(groupBy[j].name) == schema.FindColIdx(name)
             && schema.FindColIdx(name).Some?;
    assert Matches(out.columns[j], name);
    forall k | 0 <= k < j ensures !Matches(out.columns[k], name) {
      assert names[k] == ExprName(groupBy[k]);
    }
    assert out.FindColIdx(name) == Some(j);
    assert Eval(groupBy[j], group[|group| - 1].values, schema) == Ok(values[j]);
  }

  /** What the naming of a grouped query must satisfy for the rewrite to be faithful. */
  ghost predicate Nameable(items: Items, groupBy: seq<Expr>, schema: Schema) {
    var calls := ExtractedItems(items, []).1;
    && NamedApart(CallsInItems(items))
    && NamesClear(groupBy, calls)
    && forall i | 0 <= i < |items| :: ColumnsGrouped(items[i].0, groupBy, schema)
  }

  lemma {:induction false} CallsOfItem(items: Items, i: nat)
    requires i < |items|
    ensures forall c | c in CallsIn(items[i].0) :: c in CallsInItems(items)
  {
    if i > 0 {
      CallsOfItem(items[1..], i - 1);
    }
  }

  lemma ItemCallsListed(items: Items, i: nat)
    requires i < |items| && NamedApart(CallsInItems(items))
    ensures CallsListed(items[i].0, ExtractedItems(items, []).1)
  {
    hide CallName, ExtractedItems, CallsIn, CallsInItems, IsAggregateName;
    var source := CallsInItems(items);
    var calls := ExtractedItems(items, []).1;
    ItemsAreComplete(items, [], source);
    CallsOfItem(items, i);
    forall c | c in CallsIn(items[i].0)
      ensures exists k :: 0 <= k < |calls| && calls[k] == AggCall(c.0, c.1, CallName(c.0, c.1))
    {
      assert Named(calls, CallName(c.0, c.1));
      var k :| 0 <= k < |calls| && calls[k].name == CallName(c.0, c.1);
      assert (calls[k].func, calls[k].arg) in source && c in source;
    }
  }

  lemma {:induction false} CallIsInSomeItem(items: Items, c: (string, Expr))
    requires c in CallsInItems(items)
    ensures exists i :: 0 <= i < |items| && c in CallsIn(items[i].0)
  {
    if c !in CallsIn(items[0].0) {
      CallIsInSomeItem(items[1..], c);
      var i :| 0 <= i < |items| - 1 && c in CallsIn(items[1..][i].0);
      assert c in CallsIn(items[i + 1].0);
    }
  }

  /** Every aggregate call of a query keeps a column of its own if and only if different calls have
      different generated names. */
  lemma CallsKeptIff(items: Items)
    ensures (forall i | 0 <= i < |items| :: CallsListed(items[i].0, ExtractedItems(items, []).1)) <==>
            NamedApart(CallsInItems(items))
  {
    hide CallName, ExtractedItems, CallsIn, CallsInItems, IsAggregateName;
    var source, calls := CallsInItems(items), ExtractedItems(items, []).1;
    if NamedApart(source) {
      forall i | 0 <= i < |items| ensures CallsListed(items[i].0, calls) {
        ItemCallsListed(items, i);
      }
    }
    if forall i | 0 <= i < |items| :: CallsListed(items[i].0, calls) {
      ItemsAreComplete(items, [], source);
      forall c, d | c in source && d in source && CallName(c.0, c.1) == CallName(d.0, d.1) ensures c == d {
        CallIsInSomeItem(items, c);
        CallIsInSomeItem(items, d);
        var i :| 0 <= i < |items| && c in CallsIn(items[i].0);
        var j :| 0 <= j < |items| && d in CallsIn(items[j].0);
        assert CallsListed(items[i].0, calls) && CallsListed(items[j].0, calls);
      }
    }
  }

  lemma {:induction false} RewrittenItemsMean(rest: Items, exprs: seq<Expr>, values: seq<Value>, out: Schema, group: seq<Tuple>, schema: Schema)
    requires |exprs| == |rest|
    requires forall i | 0 <= i < |rest| :: Eval(exprs[i], values, out) == EvalOverGroup(rest[i].0, group, schema)
    ensures EvalAll(exprs, values, out) == EvalItemsOverGroup(rest, group, schema)
  {
    hide Eval, EvalOverGroup;
    if rest != [] {
      RewrittenItemsMean(rest[1..], exprs[1..], values, out, group, schema);
    }
  }

  /** The rewritten select items, evaluated on a group's output row, are the items over the group. */
  lemma RewriteMeansSame(items: Items, values: seq<Value>, out: Schema, group: seq<Tuple>, groupBy: seq<Expr>, schema: Schema)
    requires Nameable(items, groupBy, schema)
    requires AggOutput(out, groupBy, ExtractedItems(items, []).1)
    requires GroupOutput(values, group, groupBy, ExtractedItems(items, []).1, schema)
    ensures EvalAll(Exprs(ExtractedItems(items, []).0), values, out) == EvalItemsOverGroup(items, group, schema)
  {
    hide ExtractedItems, Extracted, NamesClear, AggOutput, GroupOutput, Eval, EvalOverGroup, NamedApart, ColumnsGrouped, CallsListed;
    var (rewritten, calls) := ExtractedItems(items, []);
    var exprs := Exprs(rewritten);
    forall i | 0 <= i < |items| ensures Eval(exprs[i], values, out) == EvalOverGroup(items[i].0, group, schema) {
      RewrittenItem(items, [], i);
      ItemCallsListed(items, i);
      RewrittenExprMeans(items[i].0, values, out, group, groupBy, calls, schema);
    }
    RewrittenItemsMean(items, exprs, values, out, group, schema);
  }

  // The whole plan.

  lemma {:induction false} ProjectedGroupsMean(items: Items, order: seq<string>, rows: seq<Tuple>, keyed: seq<KeyedRow>,
                                               groupBy: seq<Expr>, schema: Schema, out: Schema)
    requires Nameable(items, groupBy, schema)
    requires AggOutput(out, groupBy, ExtractedItems(items, []).1)
    requires KeyedAs(rows, keyed, groupBy, ExtractedItems(items, []).1, schema)
    requires KnownCalls(ExtractedItems(items, []).1) && ArgsFit(keyed, ExtractedItems(items, []).1)
    requires forall k | k in order :: k in Keys(keyed)
    ensures ProjectStream(Stream(GroupRows(order, keyed, ExtractedItems(items, []).1), Done),
                          Exprs(ExtractedItems(items, []).0), out) ==
            GroupedStream(GroupsOf(order, rows, groupBy, schema), items, schema)
  {
    hide Nameable, AggOutput, GroupOutput, KeyedAs, Keys, EvalAll, EvalItemsOverGroup, ExtractedItems, GroupRow, GroupOf;
    var (rewritten, calls) := ExtractedItems(items, []);
    if order != [] {
      MembersFit(keyed, order[0], calls);
      var members, group := Members(keyed, order[0]), GroupOf(rows, order[0], groupBy, schema);
      MembersAreGroup(rows, keyed, order[0], groupBy, calls, schema);
      assert order[0] in order;
      assert members != [];
      GroupRowIsOutput(group, members, groupBy, calls, schema);
      hide Members;
      RewriteMeansSame(items, GroupRow(members, calls).values, out, group, groupBy, schema);
      ProjectedGroupsMean(items, order[1..], rows, keyed, groupBy, schema, out);
      assert GroupRows(order, keyed, calls)[1..] == GroupRows(order[1..], keyed, calls);
      assert GroupsOf(order, rows, groupBy, schema)[1..] == GroupsOf(order[1..], rows, groupBy, schema);
    }
  }

  lemma AggOutputOfColumns(groupBy: seq<Expr>, calls: seq<AggCall>, schema: Schema)
    requires GroupColumns(groupBy, schema).Ok? && AggColumns(calls, schema).Ok?
    ensures AggOutput(Schema(GroupColumns(groupBy, schema).value + AggColumns(calls, schema).value), groupBy, calls)
  {
    hide ExprType, AggType, ExprName, GroupColumns, AggColumns;
    var keys, aggs := GroupColumns(groupBy, schema).value, AggColumns(calls, schema).value;
    var both: seq<Column> := keys + aggs;
    forall i | 0 <= i < |both| ensures both[i].name == Names(groupBy, calls)[i] {
      if i >= |keys| {
        assert both[i] == aggs[i - |keys|];
      }
    }
  }

  lemma AggOutputOfPlan(child: LogicalPlan, groupBy: seq<Expr>, calls: seq<AggCall>, catalog: CatalogMap)
    requires PlanSchema(Agg(child, groupBy, calls), catalog).Ok?
    ensures AggOutput(PlanSchema(Agg(child, groupBy, calls), catalog).value, groupBy, calls)
  {
    hide AggOutput, GroupColumns, AggColumns;
    AggOutputOfColumns(groupBy, calls, PlanSchema(child, catalog).value);
  }

  /** The groups a query has: those of its rows in hash order, or one empty group for a global
      aggregation over no rows. */
  function QueryGroups(rows: seq<Tuple>, groupBy: seq<Expr>, schema: Schema, order: seq<string>): seq<seq<Tuple>> {
    if rows == [] then (if groupBy == [] then [[]] else [])
    else GroupsOf(order, rows, groupBy, schema)
  }

  lemma GlobalOverNothing(items: Items, schema: Schema, out: Schema)
    requires Nameable(items, [], schema)
    requires AggOutput(out, [], ExtractedItems(items, []).1) && KnownCalls(ExtractedItems(items, []).1)
    ensures ProjectStream(Stream([Plain(Finals(EmptyStates(ExtractedItems(items, []).1)))], Done),
                          Exprs(ExtractedItems(items, []).0), out) ==
            GroupedStream([[]], items, schema)
  {
    hide Nameable, AggOutput, GroupOutput, EvalAll, EvalItemsOverGroup, ExtractedItems, EmptyStates;
    var calls := ExtractedItems(items, []).1;
    EmptyGroupIsOutput(calls, schema);
    RewriteMeansSame(items, Finals(EmptyStates(calls)), out, [], [], schema);
    var row := Plain(Finals(EmptyStates(calls)));
    var groups: seq<seq<Tuple>> := [[]];
    assert [row][1..] == [] && groups[1..] == [];
  }

  /** The keys of the groups of some rows. */
  function KeysOf(rows: seq<Tuple>, groupBy: seq<Expr>, schema: Schema): set<string> {
    set r | r in rows :: KeyOf(r, groupBy, schema)
  }

  /** A grouped query means what its select items say: the rewritten plan delivers, group by group, the
      original items read over the rows of the group, with the same first error; it fails to start
      exactly as the aggregation does. */
  lemma GroupedPlanMeansItems(child: LogicalPlan, groupBy: seq<Expr>, items: Items, catalog: CatalogMap, ctx: ExecutionContext)
    requires groupBy != [] || CallsInItems(items) != []
    requires PlanSchema(Agg(child, groupBy, ExtractedItems(items, []).1), catalog).Ok?
    requires PlanSchema(child, catalog).Ok? && Nameable(items, groupBy, PlanSchema(child, catalog).value)
    ensures var schema := PlanSchema(child, catalog).value;
            match Denote(Agg(child, groupBy, ExtractedItems(items, []).1), catalog, ctx)
            case Aborted(e) => Denote(BoundProjection(child, groupBy, items), catalog, ctx) == Aborted(e)
            case Started(_) =>
              && Denote(child, catalog, ctx).Started?
              && var rows := Denote(child, catalog, ctx).stream.rows;
                 var order := ctx.hashOrder(KeysOf(rows, groupBy, schema));
                 Denote(BoundProjection(child, groupBy, items), catalog, ctx) ==
                 Started(GroupedStream(QueryGroups(rows, groupBy, schema, order), items, schema))
  {
    hide IsAggregateQuery, CallsInItems, Denote, PlanSchema, Nameable, AggOutput, ExtractedItems, KeyRows, Keys, Members, GroupRows, GroupsOf, KeyRow, KeysOf;
    IsAggregateQueryIff(groupBy, items);
    var (rewritten, calls) := ExtractedItems(items, []);
    var schema := PlanSchema(child, catalog).value;
    var out := PlanSchema(Agg(child, groupBy, calls), catalog).value;
    DenoteUnfolds(Agg(child, groupBy, calls), catalog, ctx);
    DenoteUnfolds(Project(Agg(child, groupBy, calls), rewritten), catalog, ctx);
    if Denote(Agg(child, groupBy, calls), catalog, ctx).Started? {
      AggOutputOfPlan(child, groupBy, calls, catalog);
      var rows := Denote(child, catalog, ctx).stream.rows;
      var keyed := KeyRows(rows, groupBy, calls, schema).value;
      KeyedRowsFit(rows, groupBy, calls, schema);
      KeysAreKeys(rows, keyed, groupBy, calls, schema);
      if rows != [] {
        ProjectedGroupsMean(items, ctx.hashOrder(Keys(keyed)), rows, keyed, groupBy, schema, out);
      } else if groupBy == [] {
        GlobalOverNothing(items, schema, out);
      }
    }
  }

  function KeyOf(row: Tuple, groupBy: seq<Expr>, schema: Schema): string {
    var g := EvalAll(groupBy, row.values, schema);
    if g.Ok? then MakeGroupKey(g.value) else ""
  }

  lemma KeysAreKeys(rows: seq<Tuple>, keyed: seq<KeyedRow>, groupBy: seq<Expr>, calls: seq<AggCall>, schema: Schema)
    requires KeyRows(rows, groupBy, calls, schema) == Ok(keyed)
    ensures KeyedAs(rows, keyed, groupBy, calls, schema)
    ensures Keys(keyed) == KeysOf(rows, groupBy, schema)
  {
    hide EvalAll, EvalArgs, MakeGroupKey;
    forall i | 0 <= i < |rows| ensures keyed[i].key == KeyOf(rows[i], groupBy, schema) {
      assert KeyRow(rows[i], groupBy, calls, schema) == Ok(keyed[i]);
    }
    forall k ensures k in Keys(keyed) <==> k in KeysOf(rows, groupBy, schema) {
      if k in Keys(keyed) {
        var i :| 0 <= i < |keyed| && keyed[i].key == k;
        assert rows[i] in rows;
      }
      if r :| r in rows && KeyOf(r, groupBy, schema) == k {
        var i :| 0 <= i < |rows| && rows[i] == r;
        assert keyed[i].key == k;
      }
    }
  }
}
