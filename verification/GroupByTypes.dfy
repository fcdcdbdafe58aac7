/** GROUP BY by the declared types of its columns: exactly when it tells value lists apart. */
module GroupByTypes {
  import opened Wrappers
  import opened Storage
  import opened Catalog
  import opened Planner
  import opened Aggregation
  import opened GroupKey
  import opened Meaning
  import opened Grouping
  import opened GroupingLaws
  import opened Typing
  import opened GroupedQuery

  /** A row of values of the given types, NULLs allowed, without floats. */
  predicate Holds(vals: seq<Value>, types: seq<DataType>) {
    && |vals| == |types|
    && forall i | 0 <= i < |vals| :: HasType(vals[i], types[i]) && Printable(vals[i])
  }

  predicate AtMostOneString(types: seq<DataType>) {
    forall i, j | 0 <= i < j < |types| :: !(types[i] == VarcharType && types[j] == VarcharType)
  }

  ghost predicate KeysTellApart(types: seq<DataType>) {
    forall a, b | Holds(a, types) && Holds(b, types) && MakeGroupKey(a) == MakeGroupKey(b) :: a == b
  }

  function StringColumn(types: seq<DataType>): (p: int)
    ensures AtMostOneString(types) ==> forall i | 0 <= i < |types| :: types[i] == VarcharType ==> i == p
  {
    if types == [] then -1
    else if types[0] == VarcharType then 0
    else
      assert AtMostOneString(types) ==> AtMostOneString(types[1..]);
      assert forall i | 1 <= i < |types| :: types[i] == types[1..][i - 1];
      1 + StringColumn(types[1..])
  }

  lemma HeldCommas(vals: seq<Value>, types: seq<DataType>)
    requires Holds(vals, types) && AtMostOneString(types)
    ensures CommasOnlyAt(vals, StringColumn(types))
  {
  }

  function Nulls(n: nat): (vals: seq<Value>)
    ensures |vals| == n && forall i | 0 <= i < n :: vals[i] == Null
  {
    seq(n, i => Null)
  }

  /** Two strings among NULLs. */
  function Around(types: seq<DataType>, p: nat, q: nat, x: string, y: string): (vals: seq<Value>)
    requires p < q < |types|
    ensures |vals| == |types|
    ensures forall i | 0 <= i < |types| :: vals[i] == if i == p then Varchar(x) else if i == q then Varchar(y) else Null
  {
    Nulls(p) + ([Varchar(x)] + Nulls(q - p - 1) + [Varchar(y)]) + Nulls(|types| - q - 1)
  }

  /** Two rows that hold the types, differ and share a key. */
  lemma TwoStringsClash(types: seq<DataType>, p: nat, q: nat) returns (one: seq<Value>, two: seq<Value>)
    requires p < q < |types| && types[p] == VarcharType && types[q] == VarcharType
    ensures Holds(one, types) && Holds(two, types) && one != two && MakeGroupKey(one) == MakeGroupKey(two)
  {
    hide MakeGroupKey, Between, Nulls;
    var k := Between(Tags(Nulls(q - p - 1)));
    one, two := Around(types, p, q, "" + k + "s:" + "", ""), Around(types, p, q, "", "" + k + "s:" + "");
    CommaMakesGroupsClash("", "", "", Nulls(p), Nulls(q - p - 1), Nulls(|types| - q - 1));
  }

  /** Over all rows without floats of the given column types, NULLs and commas included, the group key is
      injective if and only if at most one of the columns holds strings. */
  lemma KeysTellApartIff(types: seq<DataType>)
    ensures KeysTellApart(types) <==> AtMostOneString(types)
  {
    hide MakeGroupKey, CommasOnlyAt, Holds;
    if AtMostOneString(types) {
      forall a, b | Holds(a, types) && Holds(b, types) && MakeGroupKey(a) == MakeGroupKey(b) ensures a == b {
        HeldCommas(a, types);
        HeldCommas(b, types);
        HeldWidth(a, types);
        HeldWidth(b, types);
        GroupKeyIsInjective(a, b, StringColumn(types));
      }
    } else {
      var p, q :| 0 <= p < q < |types| && types[p] == VarcharType && types[q] == VarcharType;
      var one, two := TwoStringsClash(types, p, q);
    }
  }

  lemma HeldWidth(vals: seq<Value>, types: seq<DataType>)
    requires Holds(vals, types)
    ensures |vals| == |types|
  {
  }

  // Whole queries that group by columns of a table.

  function Types(schema: Schema): (types: seq<DataType>)
    ensures |types| == |schema.columns| && forall i | 0 <= i < |types| :: types[i] == schema.columns[i].dataType
  {
    seq(|schema.columns|, i requires 0 <= i < |schema.columns| => schema.columns[i].dataType)
  }

  /** A schema in which every column is found under its own name. */
  predicate Addressable(schema: Schema) {
    forall i | 0 <= i < |schema.columns| :: schema.FindColIdx(schema.columns[i].name) == Some(i)
  }

  function AllColumns(schema: Schema): (exprs: seq<Expr>)
    ensures |exprs| == |schema.columns| && forall i | 0 <= i < |exprs| :: exprs[i] == ColRef(schema.columns[i].name)
  {
    seq(|schema.columns|, i requires 0 <= i < |schema.columns| => ColRef(schema.columns[i].name))
  }

  lemma {:induction false} EvalAllIs(exprs: seq<Expr>, vals: seq<Value>, values: seq<Value>, schema: Schema)
    requires |exprs| == |vals|
    requires forall i | 0 <= i < |exprs| :: Eval(exprs[i], values, schema) == Ok(vals[i])
    ensures EvalAll(exprs, values, schema) == Ok(vals)
  {
    hide Eval;
    if exprs != [] {
      EvalAllIs(exprs[1..], vals[1..], values, schema);
      assert [vals[0]] + vals[1..] == vals;
    }
  }

  lemma ReadsAll(values: seq<Value>, schema: Schema)
    requires Addressable(schema) && |values| == |schema.columns|
    ensures EvalAll(AllColumns(schema), values, schema) == Ok(values)
  {
    EvalAllIs(AllColumns(schema), values, values, schema);
  }

  ghost predicate AllHold(rows: seq<Tuple>, types: seq<DataType>) {
    forall i | 0 <= i < |rows| :: Holds(rows[i].values, types)
  }

  /** SELECT DISTINCT by GROUP BY on all columns is right: over all rows without floats that fit the
      columns it delivers each value list once, and no other. */
  ghost predicate GroupsTellApart(schema: Schema) {
    forall s: Stream, order: HashOrder | s.rows != [] && AllHold(s.rows, Types(schema)) ::
      var out := AggOutcome(Started(s), AllColumns(schema), [], schema, order);
      out.Started? ==> ShowsEachOnce(out.stream.rows, s.rows, AllColumns(schema), schema)
  }

  lemma AllCommasAt(s: Stream, schema: Schema)
    requires Addressable(schema) && AllHold(s.rows, Types(schema)) && AtMostOneString(Types(schema))
    ensures forall i | 0 <= i < |s.rows| ::
              var vals := EvalAll(AllColumns(schema), s.rows[i].values, schema);
              vals.Ok? ==> CommasOnlyAt(vals.value, StringColumn(Types(schema)))
  {
    hide CommasOnlyAt, EvalAll, Holds;
    forall i | 0 <= i < |s.rows|
      ensures EvalAll(AllColumns(schema), s.rows[i].values, schema).Ok? ==>
                CommasOnlyAt(EvalAll(AllColumns(schema), s.rows[i].values, schema).value, StringColumn(Types(schema)))
    {
      HeldWidth(s.rows[i].values, Types(schema));
      ReadsAll(s.rows[i].values, schema);
      HeldCommas(s.rows[i].values, Types(schema));
    }
  }

  lemma KeysOfTwo(one: Tuple, two: Tuple, schema: Schema)
    requires Addressable(schema) && |one.values| == |two.values| == |schema.columns|
    requires MakeGroupKey(one.values) == MakeGroupKey(two.values)
    ensures var k := MakeGroupKey(one.values);
            KeyRows([one, two], AllColumns(schema), [], schema) == Ok([KeyedRow(k, one.values, []), KeyedRow(k, two.values, [])])
  {
    hide MakeGroupKey, EvalAll;
    var exprs := AllColumns(schema);
    ReadsAll(one.values, schema);
    ReadsAll(two.values, schema);
    assert EvalArgs([], one.values, schema) == Ok([]) && EvalArgs([], two.values, schema) == Ok([]);
    var k := MakeGroupKey(one.values);
    assert KeyRow(one, exprs, [], schema) == Ok(KeyedRow(k, one.values, []));
    assert KeyRow(two, exprs, [], schema) == Ok(KeyedRow(k, two.values, []));
    KeyOneRow(one, exprs, [], schema);
    KeyOneRow(two, exprs, [], schema);
    KeyRowsConcat([one], [two], exprs, [], schema);
    var x, y := KeyedRow(k, one.values, []), KeyedRow(k, two.values, []);
    assert [one] + [two] == [one, two] && [x] + [y] == [x, y];
  }

  lemma OneKey(order: seq<string>, k: string)
    requires Enumerates(order, {k})
    ensures |order| == 1
  {
    assert k in order;
    assert |order| > 1 ==> order[0] != order[1];
    forall i | 0 <= i < |order| ensures order[i] == k {
      assert order[i] in order;
    }
  }

  /** One output row cannot show two lists. */
  lemma OneRowShowsOneList(out: seq<Tuple>, one: Tuple, two: Tuple, schema: Schema)
    requires Addressable(schema) && |one.values| == |two.values| == |schema.columns| && one.values != two.values
    requires |out| == 1
    ensures !ShowsEachOnce(out, [one, two], AllColumns(schema), schema)
  {
    hide EvalAll, Shown, AllColumns;
    ReadsAll(one.values, schema);
    ReadsAll(two.values, schema);
    var rows := [one, two];
    assert ShowsEachOnce(out, rows, AllColumns(schema), schema) ==>
             IsShown(rows[0], out, AllColumns(schema), schema) && IsShown(rows[1], out, AllColumns(schema), schema);
  }

  /** Two rows with one key make one group. */
  lemma TwoRowsOneGroup(one: Tuple, two: Tuple, schema: Schema, order: HashOrder)
    requires Addressable(schema) && |one.values| == |two.values| == |schema.columns|
    requires MakeGroupKey(one.values) == MakeGroupKey(two.values)
    ensures var out := AggOutcome(Started(Stream([one, two], Done)), AllColumns(schema), [], schema, order);
            out.Started? && |out.stream.rows| == 1
  {
    hide MakeGroupKey, KeyRow, KeyRows, Members, GroupRow, AllColumns, Addressable;
    var rows, exprs, k := [one, two], AllColumns(schema), MakeGroupKey(one.values);
    KeysOfTwo(one, two, schema);
    var keyed := [KeyedRow(k, one.values, []), KeyedRow(k, two.values, [])];
    assert keyed[0].key == k && keyed[1].key == k;
    assert Keys(keyed) == {k};
    OneKey(order(Keys(keyed)), k);
  }

  /** For columns found under their own names: GROUP BY all of them is right for all rows without floats if
      and only if at most one of them is declared VARCHAR. */
  lemma GroupsTellApartIff(schema: Schema, order: HashOrder)
    requires Addressable(schema)
    ensures GroupsTellApart(schema) <==> AtMostOneString(Types(schema))
  {
    hide MakeGroupKey, CommasOnlyAt, Holds, ShowsEachOnce, AggOutcome, EvalAll, AllColumns, Addressable;
    var types := Types(schema);
    if AtMostOneString(types) {
      forall s: Stream, o: HashOrder | s.rows != [] && AllHold(s.rows, types)
        ensures var out := AggOutcome(Started(s), AllColumns(schema), [], schema, o);
                out.Started? ==> ShowsEachOnce(out.stream.rows, s.rows, AllColumns(schema), schema)
      {
        AllCommasAt(s, schema);
        OneRowPerValueList(s, AllColumns(schema), [], schema, o, StringColumn(types));
      }
    } else {
      var p, q :| 0 <= p < q < |types| && types[p] == VarcharType && types[q] == VarcharType;
      var one, two := TwoStringsClash(types, p, q);
      HeldWidth(one, types);
      HeldWidth(two, types);
      TwoRowsOneGroup(Plain(one), Plain(two), schema, order);
      OneRowShowsOneList(AggOutcome(Started(Stream([Plain(one), Plain(two)], Done)), AllColumns(schema), [], schema, order).stream.rows,
                         Plain(one), Plain(two), schema);
      var s := Stream([Plain(one), Plain(two)], Done);
      assert AllHold(s.rows, types);
    }
  }

  // Any grouping expressions of a typed plan.

  /** The declared types of the grouping columns in the output of an aggregation. */
  function GroupTypes(groupBy: seq<Expr>, schema: Schema): (types: seq<DataType>)
    requires GroupColumns(groupBy, schema).Ok?
    ensures |types| == |groupBy| && forall i | 0 <= i < |groupBy| :: ExprType(groupBy[i], schema) == Ok(types[i])
  {
    Types(Schema(GroupColumns(groupBy, schema).value))
  }

  predicate NoFloats(types: seq<DataType>) {
    forall i | 0 <= i < |types| :: types[i] != FloatType
  }

  lemma TypedListsHold(values: seq<Value>, groupBy: seq<Expr>, schema: Schema)
    requires Fits(values, schema, true) && GroupColumns(groupBy, schema).Ok?
    requires NoFloats(GroupTypes(groupBy, schema)) && EvalAll(groupBy, values, schema).Ok?
    ensures Holds(EvalAll(groupBy, values, schema).value, GroupTypes(groupBy, schema))
  {
    hide Fits, ExprType, Eval;
    var vals, types := EvalAll(groupBy, values, schema).value, GroupTypes(groupBy, schema);
    forall i | 0 <= i < |vals| ensures HasType(vals[i], types[i]) && Printable(vals[i]) {
      EvalFits(groupBy[i], values, schema, true);
    }
  }

  /** A grouped plan over tables of the declared types, with grouping expressions of which none is FLOAT
      and at most one VARCHAR, delivers exactly one row per distinct list of grouping values of its input. */
  lemma GroupedPlanShowsEachOnce(child: LogicalPlan, groupBy: seq<Expr>, calls: seq<AggCall>, catalog: CatalogMap, ctx: ExecutionContext)
    requires StoredRowsFit(catalog, ctx.tables, true) && groupBy != []
    requires PlanSchema(child, catalog).Ok? && GroupColumns(groupBy, PlanSchema(child, catalog).value).Ok?
    requires var types := GroupTypes(groupBy, PlanSchema(child, catalog).value); NoFloats(types) && AtMostOneString(types)
    ensures var out := Denote(Agg(child, groupBy, calls), catalog, ctx);
            out.Started? ==>
              && Denote(child, catalog, ctx).Started?
              && ShowsEachOnce(out.stream.rows, Denote(child, catalog, ctx).stream.rows, groupBy, PlanSchema(child, catalog).value)
  {
    hide Denote, PlanSchema, StoredRowsFit, AggOutcome, ShowsEachOnce, EvalAll, CommasOnlyAt, GroupColumns, Fits, Holds, AtMostOneString, NoFloats;
    var schema := PlanSchema(child, catalog).value;
    DenoteUnfolds(Agg(child, groupBy, calls), catalog, ctx);
    PlanFits(child, catalog, ctx, true);
    var o := Denote(child, catalog, ctx);
    if o.Started? {
      var s, p := o.stream, StringColumn(GroupTypes(groupBy, schema));
      forall i | 0 <= i < |s.rows|
        ensures EvalAll(groupBy, s.rows[i].values, schema).Ok? ==> CommasOnlyAt(EvalAll(groupBy, s.rows[i].values, schema).value, p)
      {
        if EvalAll(groupBy, s.rows[i].values, schema).Ok? {
          TypedListsHold(s.rows[i].values, groupBy, schema);
          HeldCommas(EvalAll(groupBy, s.rows[i].values, schema).value, GroupTypes(groupBy, schema));
        }
      }
      OneRowPerValueList(s, groupBy, calls, schema, ctx.hashOrder, p);
    } else {
      NoAggregation(o, groupBy, calls, schema, ctx.hashOrder);
    }
  }

  lemma NoAggregation(o: Outcome, groupBy: seq<Expr>, calls: seq<AggCall>, schema: Schema, order: HashOrder)
    requires o.Aborted?
    ensures AggOutcome(o, groupBy, calls, schema, order) == o
  {
  }
}
