/** Hash aggregation partitions the child rows: group sizes add up, and keys stand for value lists. */
module GroupingLaws {
  import opened Wrappers
  import opened Storage
  import opened Catalog
  import opened Planner
  import opened Aggregation
  import opened GroupKey
  import opened Meaning
  import opened Grouping
  import opened ExprLaws

  predicate Distinct(order: seq<string>) {
    forall i, j | 0 <= i < j < |order| :: order[i] != order[j]
  }

  /** The sizes of the listed groups, added up. */
  function Sizes(order: seq<string>, keyed: seq<KeyedRow>): nat {
    if order == [] then 0 else |Members(keyed, order[0])| + Sizes(order[1..], keyed)
  }

  lemma {:induction false} SizesGrow(order: seq<string>, keyed: seq<KeyedRow>, k: KeyedRow)
    requires Distinct(order)
    ensures Sizes(order, keyed + [k]) == Sizes(order, keyed) + if k.key in order then 1 else 0
  {
    hide Members;
    if order != [] {
      SizesGrow(order[1..], keyed, k);
      MembersGrow(keyed, k, order[0]);
      assert order == [order[0]] + order[1..];
      if k.key == order[0] {
        assert forall i | 0 < i < |order| :: order[0] != order[i];
        assert k.key !in order[1..];
      }
    }
  }

  lemma {:induction false} SizesOfNothing(order: seq<string>)
    ensures Sizes(order, []) == 0
  {
    if order != [] {
      SizesOfNothing(order[1..]);
    }
  }

  /** Every row is in exactly one listed group. */
  lemma {:induction false} SizesAddUp(order: seq<string>, keyed: seq<KeyedRow>)
    requires Distinct(order)
    requires forall i | 0 <= i < |keyed| :: keyed[i].key in order
    ensures Sizes(order, keyed) == |keyed|
    decreases |keyed|
  {
    if keyed == [] {
      SizesOfNothing(order);
    } else {
      var front, last := keyed[..|keyed| - 1], keyed[|keyed| - 1];
      SizesAddUp(order, front);
      SizesGrow(order, front, last);
      assert keyed == front + [last];
    }
  }

  lemma {:induction false} CountOfOnes(n: nat, vals: seq<Value>)
    requires |vals| == n < TWO63 && forall i | 0 <= i < n :: vals[i] == Int(1)
    ensures Fold(CountState(0), vals) == CountState(n)
  {
    if n > 0 {
      CountOfOnes(n - 1, vals[..n - 1]);
      WrapOfFitting(n);
    }
  }

  /** A column of integers, added up. */
  function Total(rows: seq<Tuple>, col: nat): int {
    if rows == [] then 0
    else Total(rows[1..], col) +
         if col < |rows[0].values| && rows[0].values[col].Int? then rows[0].values[col].i else 0
  }

  /** Rows keyed under COUNT(*) at position i carry the constant 1 there. */
  predicate Counts(keyed: seq<KeyedRow>, width: nat, calls: seq<AggCall>, i: nat)
    requires i < |calls|
  {
    && ArgsFit(keyed, calls) && |keyed| < TWO63
    && forall k | 0 <= k < |keyed| :: |keyed[k].groupVals| == width && keyed[k].args[i] == Int(1)
  }

  lemma {:induction false} MembersAtMost(keyed: seq<KeyedRow>, key: string)
    ensures |Members(keyed, key)| <= |keyed|
  {
    if keyed != [] {
      MembersAtMost(keyed[..|keyed| - 1], key);
    }
  }

  lemma GroupRowCounts(keyed: seq<KeyedRow>, key: string, width: nat, calls: seq<AggCall>, i: nat)
    requires i < |calls| && KnownCalls(calls) && calls[i].func == "count"
    requires Counts(keyed, width, calls, i) && key in Keys(keyed)
    ensures ArgsFit(Members(keyed, key), calls)
    ensures var row := GroupRow(Members(keyed, key), calls);
            width + i < |row.values| && row.values[width + i].Int? && row.values[width + i].i == |Members(keyed, key)|
  {
    MembersFit(keyed, key, calls);
    MembersAtMost(keyed, key);
    var m := Members(keyed, key);
    forall k | 0 <= k < |m| ensures m[k].args[i] == Int(1) && |m[k].groupVals| == width {
      assert m[k] in keyed;
    }
    hide Members, Keys;
    RowCountsMembers(m, width, calls, i);
  }

  lemma RowCountsMembers(m: seq<KeyedRow>, width: nat, calls: seq<AggCall>, i: nat)
    requires m != [] && i < |calls| && KnownCalls(calls) && calls[i].func == "count"
    requires Counts(m, width, calls, i)
    ensures var row := GroupRow(m, calls);
            width + i < |row.values| && row.values[width + i].Int? && row.values[width + i].i == |m|
  {
    CountOfOnes(|m|, Argument(m, i));
    hide Fold;
    var finals := Finals(GroupStates(m, calls));
    assert finals[i].Int? && finals[i].i == |m|;
    assert (m[|m| - 1].groupVals + finals)[width + i] == finals[i];
  }

  lemma {:induction false} GroupRowsCount(order: seq<string>, keyed: seq<KeyedRow>, width: nat, calls: seq<AggCall>, i: nat)
    requires i < |calls| && KnownCalls(calls) && calls[i].func == "count"
    requires Counts(keyed, width, calls, i)
    requires forall k | k in order :: k in Keys(keyed)
    ensures Total(GroupRows(order, keyed, calls), width + i) == Sizes(order, keyed)
  {
    if order != [] {
      GroupRowCounts(keyed, order[0], width, calls, i);
      hide Members, Keys, GroupRow;
      GroupRowsCount(order[1..], keyed, width, calls, i);
      assert GroupRows(order, keyed, calls)[1..] == GroupRows(order[1..], keyed, calls);
    }
  }

  lemma KeyedRowsCount(rows: seq<Tuple>, groupBy: seq<Expr>, calls: seq<AggCall>, schema: Schema, i: nat)
    requires i < |calls| && calls[i].arg == Star && |rows| < TWO63
    requires KeyRows(rows, groupBy, calls, schema).Ok?
    ensures Counts(KeyRows(rows, groupBy, calls, schema).value, |groupBy|, calls, i)
  {
    var keyed := KeyRows(rows, groupBy, calls, schema).value;
    KeyedRowsFit(rows, groupBy, calls, schema);
    forall k | 0 <= k < |keyed| ensures |keyed[k].groupVals| == |groupBy| && keyed[k].args[i] == Int(1) {
      assert KeyRow(rows[k], groupBy, calls, schema) == Ok(keyed[k]);
      assert EvalArg(calls[i].arg, rows[k].values, schema) == Ok(keyed[k].args[i]);
    }
  }

  lemma EmptyGlobalCount(calls: seq<AggCall>, i: nat)
    requires KnownCalls(calls) && i < |calls| && calls[i].func == "count"
    ensures Total([Plain(Finals(EmptyStates(calls)))], i) == 0
  {
    var row := Plain(Finals(EmptyStates(calls)));
    assert row.values[i] == Int(0);
    assert [row][1..] == [];
  }

  /** The three ways an aggregation starts. */
  lemma StartedAggregation(s: Stream, groupBy: seq<Expr>, calls: seq<AggCall>, schema: Schema, hashOrder: HashOrder)
    requires AggOutcome(Started(s), groupBy, calls, schema, hashOrder).Started?
    ensures KeyRows(s.rows, groupBy, calls, schema).Ok?
    ensures var keyed := KeyRows(s.rows, groupBy, calls, schema).value;
            var out := AggOutcome(Started(s), groupBy, calls, schema, hashOrder).stream.rows;
            && ArgsFit(keyed, calls)
            && (s.rows == [] && groupBy != [] ==> out == [])
            && (s.rows != [] || groupBy == [] ==> KnownCalls(calls))
            && (s.rows == [] && groupBy == [] ==> out == [Plain(Finals(EmptyStates(calls)))])
            && (s.rows != [] ==> out == GroupRows(hashOrder(Keys(keyed)), keyed, calls))
  {
    hide KeyRow, Members, GroupRows;
    KeyedRowsFit(s.rows, groupBy, calls, schema);
  }

  /** COUNT(*) over all groups adds up to the number of child rows, the empty input included. */
  lemma CountStarAddsUp(s: Stream, groupBy: seq<Expr>, calls: seq<AggCall>, schema: Schema, hashOrder: HashOrder, i: nat)
    requires i < |calls| && calls[i].func == "count" && calls[i].arg == Star
    requires |s.rows| < TWO63
    ensures var out := AggOutcome(Started(s), groupBy, calls, schema, hashOrder);
            out.Started? ==> Total(out.stream.rows, |groupBy| + i) == |s.rows|
  {
    hide *;
    if AggOutcome(Started(s), groupBy, calls, schema, hashOrder).Started? {
      StartedAggregation(s, groupBy, calls, schema, hashOrder);
      if s.rows != [] {
        KeyedRowsCount(s.rows, groupBy, calls, schema, i);
        var keyed := KeyRows(s.rows, groupBy, calls, schema).value;
        TotalOfGroups(hashOrder(Keys(keyed)), keyed, |groupBy|, calls, i);
      } else {
        TotalOfNothing(|groupBy| + i);
        if groupBy == [] {
          EmptyGlobalCount(calls, i);
        }
      }
    }
  }

  lemma TotalOfNothing(col: nat)
    ensures Total([], col) == 0
  {
  }

  lemma TotalOfGroups(order: seq<string>, keyed: seq<KeyedRow>, width: nat, calls: seq<AggCall>, i: nat)
    requires i < |calls| && KnownCalls(calls) && calls[i].func == "count"
    requires Counts(keyed, width, calls, i) && Enumerates(order, Keys(keyed))
    ensures Total(GroupRows(order, keyed, calls), width + i) == |keyed|
  {
    hide Members, GroupRows;
    GroupRowsCount(order, keyed, width, calls, i);
    SizesAddUp(order, keyed);
  }

  // Keys stand for value lists when commas are in one column at most.

  predicate Separable(k: KeyedRow, width: nat, p: int) {
    |k.groupVals| == width && CommasOnlyAt(k.groupVals, p) && k.key == MakeGroupKey(k.groupVals)
  }

  predicate AllSeparable(keyed: seq<KeyedRow>, width: nat, p: int) {
    forall i | 0 <= i < |keyed| :: Separable(keyed[i], width, p)
  }

  /** The members of a group are the rows with one and the same value list. */
  lemma GroupIsValueList(keyed: seq<KeyedRow>, x: KeyedRow, y: KeyedRow, width: nat, p: int)
    requires AllSeparable(keyed, width, p) && x in keyed && y in keyed
    ensures x.key == y.key <==> x.groupVals == y.groupVals
  {
    if x.key == y.key {
      GroupKeyIsInjective(x.groupVals, y.groupVals, p);
    }
  }

  /** What a group row shows in its first columns. */
  function Shown(rows: seq<Tuple>, i: nat, width: nat): seq<Value>
    requires i < |rows|
  {
    if width <= |rows[i].values| then rows[i].values[..width] else rows[i].values
  }

  lemma {:induction false} GroupRowsAt(order: seq<string>, keyed: seq<KeyedRow>, calls: seq<AggCall>, i: nat)
    requires KnownCalls(calls) && ArgsFit(keyed, calls) && i < |order|
    requires forall k | k in order :: k in Keys(keyed)
    ensures ArgsFit(Members(keyed, order[i]), calls)
    ensures GroupRows(order, keyed, calls)[i] == GroupRow(Members(keyed, order[i]), calls)
  {
    MembersFit(keyed, order[i], calls);
    if i > 0 {
      GroupRowsAt(order[1..], keyed, calls, i - 1);
    }
  }

  /** Row i of the output shows the grouping values of some keyed row of its group. */
  lemma GroupRowShows(order: seq<string>, keyed: seq<KeyedRow>, calls: seq<AggCall>, width: nat, i: nat)
    requires KnownCalls(calls) && ArgsFit(keyed, calls) && i < |order|
    requires forall k | k in order :: k in Keys(keyed)
    requires forall k | 0 <= k < |keyed| :: |keyed[k].groupVals| == width
    ensures exists x :: x in keyed && x.key == order[i] && Shown(GroupRows(order, keyed, calls), i, width) == x.groupVals
  {
    hide GroupRows, GroupRow;
    GroupRowsAt(order, keyed, calls, i);
    var m := Members(keyed, order[i]);
    assert m[|m| - 1] in keyed;
    StartsWithLast(m, calls, width);
  }

  lemma StartsWithLast(m: seq<KeyedRow>, calls: seq<AggCall>, width: nat)
    requires m != [] && KnownCalls(calls) && ArgsFit(m, calls) && |m[|m| - 1].groupVals| == width
    ensures width <= |GroupRow(m, calls).values| && GroupRow(m, calls).values[..width] == m[|m| - 1].groupVals
  {
  }

  /** Output row i shows the grouping values of a row. */
  predicate Shows(out: seq<Tuple>, i: nat, row: Tuple, groupBy: seq<Expr>, schema: Schema)
    requires i < |out|
  {
    EvalAll(groupBy, row.values, schema) == Ok(Shown(out, i, |groupBy|))
  }

  ghost predicate IsShown(row: Tuple, out: seq<Tuple>, groupBy: seq<Expr>, schema: Schema) {
    exists i :: 0 <= i < |out| && Shows(out, i, row, groupBy, schema)
  }

  ghost predicate ShowsSome(out: seq<Tuple>, i: nat, rows: seq<Tuple>, groupBy: seq<Expr>, schema: Schema)
    requires i < |out|
  {
    exists k :: 0 <= k < |rows| && Shows(out, i, rows[k], groupBy, schema)
  }

  /** Every list of grouping values is shown once, and nothing else is shown. */
  ghost predicate ShowsEachOnce(out: seq<Tuple>, rows: seq<Tuple>, groupBy: seq<Expr>, schema: Schema) {
    && (forall i, j | 0 <= i < j < |out| :: Shown(out, i, |groupBy|) != Shown(out, j, |groupBy|))
    && (forall k | 0 <= k < |rows| :: IsShown(rows[k], out, groupBy, schema))
    && (forall i | 0 <= i < |out| :: ShowsSome(out, i, rows, groupBy, schema))
  }

  /** The keyed row of a row has its grouping values, and the other way round. */
  lemma KeyedLists(rows: seq<Tuple>, groupBy: seq<Expr>, calls: seq<AggCall>, schema: Schema)
    requires KeyRows(rows, groupBy, calls, schema).Ok?
    ensures var keyed := KeyRows(rows, groupBy, calls, schema).value;
            && (forall i | 0 <= i < |rows| ::
                  && EvalAll(groupBy, rows[i].values, schema) == Ok(keyed[i].groupVals)
                  && keyed[i].key == MakeGroupKey(keyed[i].groupVals))
  {
    hide EvalAll, EvalArgs, MakeGroupKey;
    var keyed := KeyRows(rows, groupBy, calls, schema).value;
    forall i | 0 <= i < |rows|
      ensures EvalAll(groupBy, rows[i].values, schema) == Ok(keyed[i].groupVals) && keyed[i].key == MakeGroupKey(keyed[i].groupVals)
    {
      assert KeyRow(rows[i], groupBy, calls, schema) == Ok(keyed[i]);
    }
  }

  ghost predicate ShownBy(keyed: seq<KeyedRow>, key: string, vals: seq<Value>) {
    exists x :: x in keyed && x.key == key && x.groupVals == vals
  }

  lemma ShownIsList(keyed: seq<KeyedRow>, x: KeyedRow, key: string, vals: seq<Value>, width: nat, p: int)
    requires AllSeparable(keyed, width, p) && x in keyed && ShownBy(keyed, key, vals)
    ensures x.key == key <==> x.groupVals == vals
  {
    hide AllSeparable;
    var y :| y in keyed && y.key == key && y.groupVals == vals;
    GroupIsValueList(keyed, x, y, width, p);
  }

  lemma ShownListsDiffer(keyed: seq<KeyedRow>, key: string, vals: seq<Value>, key2: string, vals2: seq<Value>, width: nat, p: int)
    requires AllSeparable(keyed, width, p) && ShownBy(keyed, key, vals) && ShownBy(keyed, key2, vals2)
    ensures key == key2 <==> vals == vals2
  {
    hide AllSeparable;
    var x :| x in keyed && x.key == key && x.groupVals == vals;
    ShownIsList(keyed, x, key2, vals2, width, p);
  }

  lemma KeyedIndex(keyed: seq<KeyedRow>, x: KeyedRow)
    requires x in keyed
    ensures exists k :: 0 <= k < |keyed| && keyed[k] == x
  {
  }

  /** One shown list per key: all lists are different, all grouping values are among them, and no others. */
  lemma ListsShownOnce(keyed: seq<KeyedRow>, order: seq<string>, shown: seq<seq<Value>>, width: nat, p: int)
    requires AllSeparable(keyed, width, p) && Enumerates(order, Keys(keyed)) && |shown| == |order|
    requires forall i | 0 <= i < |shown| :: ShownBy(keyed, order[i], shown[i])
    ensures forall i, j | 0 <= i < j < |shown| :: shown[i] != shown[j]
    ensures forall k | 0 <= k < |keyed| :: keyed[k].groupVals in shown
    ensures forall i | 0 <= i < |shown| :: (exists k :: 0 <= k < |keyed| && keyed[k].groupVals == shown[i])
  {
    hide AllSeparable, ShownBy;
    forall i, j | 0 <= i < j < |shown| ensures shown[i] != shown[j] {
      ShownListsDiffer(keyed, order[i], shown[i], order[j], shown[j], width, p);
    }
    forall k | 0 <= k < |keyed| ensures keyed[k].groupVals in shown {
      assert keyed[k].key in Keys(keyed);
      var i :| 0 <= i < |order| && order[i] == keyed[k].key;
      ShownIsList(keyed, keyed[k], order[i], shown[i], width, p);
    }
    forall i | 0 <= i < |shown| ensures exists k :: 0 <= k < |keyed| && keyed[k].groupVals == shown[i] {
      var k := SomeShown(keyed, order[i], shown[i]);
    }
  }

  lemma GroupsShowEachOnce(rows: seq<Tuple>, groupBy: seq<Expr>, calls: seq<AggCall>, schema: Schema, order: seq<string>, p: int)
    requires KeyRows(rows, groupBy, calls, schema).Ok? && KnownCalls(calls)
    requires var keyed := KeyRows(rows, groupBy, calls, schema).value;
             ArgsFit(keyed, calls) && Enumerates(order, Keys(keyed)) && AllSeparable(keyed, |groupBy|, p)
    ensures ShowsEachOnce(GroupRows(order, KeyRows(rows, groupBy, calls, schema).value, calls), rows, groupBy, schema)
  {
    hide Members, GroupRows, EvalAll, KeyRow, KnownCalls, ArgsFit, AllSeparable, MakeGroupKey, Shown, ShownBy, ShowsEachOnce;
    var keyed, width := KeyRows(rows, groupBy, calls, schema).value, |groupBy|;
    var out := GroupRows(order, keyed, calls);
    KeyedLists(rows, groupBy, calls, schema);
    AllHaveWidth(keyed, width, p);
    var shown := seq(|out|, i requires 0 <= i < |out| => Shown(out, i, width));
    forall i | 0 <= i < |out| ensures ShownBy(keyed, order[i], shown[i]) {
      OutputIsShown(order, keyed, calls, width, i);
    }
    ListsShownOnce(keyed, order, shown, width, p);
    ShownAmong(out, rows, keyed, shown, groupBy, schema);
  }

  lemma ShownAmong(out: seq<Tuple>, rows: seq<Tuple>, keyed: seq<KeyedRow>, shown: seq<seq<Value>>, groupBy: seq<Expr>, schema: Schema)
    requires |rows| == |keyed| && |shown| == |out|
    requires forall k | 0 <= k < |rows| :: EvalAll(groupBy, rows[k].values, schema) == Ok(keyed[k].groupVals)
    requires forall i | 0 <= i < |out| :: shown[i] == Shown(out, i, |groupBy|)
    requires forall i, j | 0 <= i < j < |shown| :: shown[i] != shown[j]
    requires forall k | 0 <= k < |keyed| :: keyed[k].groupVals in shown
    requires forall i | 0 <= i < |shown| :: (exists k :: 0 <= k < |keyed| && keyed[k].groupVals == shown[i])
    ensures ShowsEachOnce(out, rows, groupBy, schema)
  {
    hide EvalAll, Shown, Shows, IsShown, ShowsSome;
    forall i, j | 0 <= i < j < |out| ensures Shown(out, i, |groupBy|) != Shown(out, j, |groupBy|) {
      assert shown[i] != shown[j];
    }
    forall k | 0 <= k < |rows| ensures IsShown(rows[k], out, groupBy, schema) {
      var i :| 0 <= i < |shown| && shown[i] == keyed[k].groupVals;
      ShownHere(out, i, rows, k, keyed[k].groupVals, groupBy, schema);
    }
    forall i | 0 <= i < |out| ensures ShowsSome(out, i, rows, groupBy, schema) {
      var k :| 0 <= k < |keyed| && keyed[k].groupVals == shown[i];
      ShownHere(out, i, rows, k, keyed[k].groupVals, groupBy, schema);
    }
  }

  lemma ShownHere(out: seq<Tuple>, i: nat, rows: seq<Tuple>, k: nat, vals: seq<Value>, groupBy: seq<Expr>, schema: Schema)
    requires i < |out| && k < |rows|
    requires EvalAll(groupBy, rows[k].values, schema) == Ok(vals) && Shown(out, i, |groupBy|) == vals
    ensures IsShown(rows[k], out, groupBy, schema) && ShowsSome(out, i, rows, groupBy, schema)
  {
    hide EvalAll, Shown;
    assert Shows(out, i, rows[k], groupBy, schema);
  }

  ghost function SomeShown(keyed: seq<KeyedRow>, key: string, vals: seq<Value>): (k: nat)
    requires ShownBy(keyed, key, vals)
    ensures k < |keyed| && keyed[k].key == key && keyed[k].groupVals == vals
  {
    var x :| x in keyed && x.key == key && x.groupVals == vals;
    KeyedIndex(keyed, x);
    var k: nat :| k < |keyed| && keyed[k] == x;
    k
  }

  lemma AllHaveWidth(keyed: seq<KeyedRow>, width: nat, p: int)
    requires AllSeparable(keyed, width, p)
    ensures forall k | 0 <= k < |keyed| :: |keyed[k].groupVals| == width
  {
    hide CommasOnlyAt;
    assert forall k | 0 <= k < |keyed| :: Separable(keyed[k], width, p);
  }

  lemma OutputIsShown(order: seq<string>, keyed: seq<KeyedRow>, calls: seq<AggCall>, width: nat, i: nat)
    requires KnownCalls(calls) && ArgsFit(keyed, calls) && i < |order|
    requires forall k | k in order :: k in Keys(keyed)
    requires forall k | 0 <= k < |keyed| :: |keyed[k].groupVals| == width
    ensures ShownBy(keyed, order[i], Shown(GroupRows(order, keyed, calls), i, width))
  {
    hide GroupRows, GroupRow, Shown;
    GroupRowShows(order, keyed, calls, width, i);
  }

  /** GROUP BY delivers exactly one row per distinct list of grouping values, and no other row, when no
      float is grouped by and commas occur in the values of one grouping column only. */
  lemma OneRowPerValueList(s: Stream, groupBy: seq<Expr>, calls: seq<AggCall>, schema: Schema, hashOrder: HashOrder, p: int)
    requires s.rows != [] || groupBy != []
    requires forall i | 0 <= i < |s.rows| ::
               var vals := EvalAll(groupBy, s.rows[i].values, schema);
               vals.Ok? ==> CommasOnlyAt(vals.value, p)
    ensures var out := AggOutcome(Started(s), groupBy, calls, schema, hashOrder);
            out.Started? ==> ShowsEachOnce(out.stream.rows, s.rows, groupBy, schema)
  {
    hide *;
    if AggOutcome(Started(s), groupBy, calls, schema, hashOrder).Started? {
      StartedAggregation(s, groupBy, calls, schema, hashOrder);
      KeyedLists(s.rows, groupBy, calls, schema);
      var keyed := KeyRows(s.rows, groupBy, calls, schema).value;
      ListsAreSeparable(s.rows, keyed, groupBy, schema, p);
      if s.rows == [] {
        NothingShown(groupBy, schema);
      } else {
        GroupsShowEachOnce(s.rows, groupBy, calls, schema, hashOrder(Keys(keyed)), p);
      }
    }
  }

  lemma NothingShown(groupBy: seq<Expr>, schema: Schema)
    ensures ShowsEachOnce([], [], groupBy, schema)
  {
  }

  lemma ListsAreSeparable(rows: seq<Tuple>, keyed: seq<KeyedRow>, groupBy: seq<Expr>, schema: Schema, p: int)
    requires |rows| == |keyed|
    requires forall i | 0 <= i < |rows| ::
               && EvalAll(groupBy, rows[i].values, schema) == Ok(keyed[i].groupVals)
               && keyed[i].key == MakeGroupKey(keyed[i].groupVals)
    requires forall i | 0 <= i < |rows| ::
               var vals := EvalAll(groupBy, rows[i].values, schema);
               vals.Ok? ==> CommasOnlyAt(vals.value, p)
    ensures AllSeparable(keyed, |groupBy|, p)
  {
    hide EvalAll, CommasOnlyAt, MakeGroupKey;
    forall i | 0 <= i < |keyed| ensures Separable(keyed[i], |groupBy|, p) {
      assert EvalAll(groupBy, rows[i].values, schema) == Ok(keyed[i].groupVals);
      EvalAllWidth(groupBy, rows[i].values, schema);
    }
  }

  lemma EvalAllWidth(exprs: seq<Expr>, values: seq<Value>, schema: Schema)
    ensures EvalAll(exprs, values, schema).Ok? ==> |EvalAll(exprs, values, schema).value| == |exprs|
  {
  }
}
