/** How groups grow row by row, and that grouping partitions the rows. */
module Grouping {
  import opened Wrappers
  import opened Storage
  import opened Catalog
  import opened Planner
  import opened Aggregation
  import opened GroupKey
  import opened Meaning

  lemma {:induction false} KeyRowsConcat(a: seq<Tuple>, b: seq<Tuple>, groupBy: seq<Expr>, calls: seq<AggCall>, schema: Schema)
    ensures KeyRows(a + b, groupBy, calls, schema) ==
            match KeyRows(a, groupBy, calls, schema)
            case Err(e) => Err(e)
            case Ok(x) =>
              match KeyRows(b, groupBy, calls, schema)
              case Err(e) => Err(e)
              case Ok(y) => Ok(x + y)
  {
    hide KeyRow;
    var y := KeyRows(b, groupBy, calls, schema);
    if a == [] {
      assert a + b == b;
      assert y.Ok? ==> [] + y.value == y.value;
    } else {
      KeyRowsConcat(a[1..], b, groupBy, calls, schema);
      assert (a + b)[1..] == a[1..] + b && (a + b)[0] == a[0];
      var k, x := KeyRow(a[0], groupBy, calls, schema), KeyRows(a[1..], groupBy, calls, schema);
      if k.Ok? && x.Ok? && y.Ok? {
        assert [k.value] + (x.value + y.value) == ([k.value] + x.value) + y.value;
      }
    }
  }

  lemma KeyOneRow(row: Tuple, groupBy: seq<Expr>, calls: seq<AggCall>, schema: Schema)
    ensures KeyRows([row], groupBy, calls, schema) ==
            match KeyRow(row, groupBy, calls, schema)
            case Err(e) => Err(e)
            case Ok(k) => Ok([k])
  {
    hide KeyRow;
    assert [row][1..] == [];
    assert KeyRows([], groupBy, calls, schema) == Ok([]);
    var k := KeyRow(row, groupBy, calls, schema);
    assert k.Ok? ==> [k.value] + [] == [k.value];
  }

  /** Keying one more row: the row's failure is the whole list's failure. */
  lemma KeyRowsStep(rows: seq<Tuple>, n: nat, groupBy: seq<Expr>, calls: seq<AggCall>, schema: Schema)
    requires n < |rows|
    requires KeyRows(rows[..n], groupBy, calls, schema).Ok?
    ensures match KeyRow(rows[n], groupBy, calls, schema)
            case Err(e) => KeyRows(rows, groupBy, calls, schema) == Err(e)
            case Ok(k) => KeyRows(rows[..n + 1], groupBy, calls, schema) ==
                          Ok(KeyRows(rows[..n], groupBy, calls, schema).value + [k])
  {
    hide KeyRow;
    var one := [rows[n]];
    KeyOneRow(rows[n], groupBy, calls, schema);
    KeyRowsConcat(rows[..n], one, groupBy, calls, schema);
    KeyRowsConcat(rows[..n + 1], rows[n + 1..], groupBy, calls, schema);
    assert rows[..n + 1] == rows[..n] + one;
    assert rows == rows[..n + 1] + rows[n + 1..];
  }

  /** Evaluating arguments left to right: all values, or the first failure. */
  lemma {:induction false} EvalArgsSoFar(calls: seq<AggCall>, vals: seq<Value>, values: seq<Value>, schema: Schema)
    requires |vals| <= |calls|
    requires forall i | 0 <= i < |vals| :: EvalArg(calls[i].arg, values, schema) == Ok(vals[i])
    ensures |vals| == |calls| ==> EvalArgs(calls, values, schema) == Ok(vals)
    ensures |vals| < |calls| && EvalArg(calls[|vals|].arg, values, schema).Err? ==>
              EvalArgs(calls, values, schema) == Err(EvalArg(calls[|vals|].arg, values, schema).error)
  {
    hide EvalArg;
    if vals != [] {
      assert EvalArg(calls[0].arg, values, schema) == Ok(vals[0]);
      EvalArgsSoFar(calls[1..], vals[1..], values, schema);
      assert [vals[0]] + vals[1..] == vals;
    }
  }

  lemma MembersGrow(keyed: seq<KeyedRow>, k: KeyedRow, key: string)
    ensures Members(keyed + [k], key) == if k.key == key then Members(keyed, key) + [k] else Members(keyed, key)
    ensures Keys(keyed + [k]) == Keys(keyed) + {k.key}
  {
    assert (keyed + [k])[..|keyed|] == keyed;
    var both := keyed + [k];
    forall x ensures x in Keys(both) <==> x in Keys(keyed) + {k.key} {
      if x in Keys(keyed) {
        var i :| 0 <= i < |keyed| && keyed[i].key == x;
        assert both[i].key == x;
      }
      if x == k.key {
        assert both[|keyed|].key == x;
      }
    }
  }

  lemma StatesGrow(members: seq<KeyedRow>, k: KeyedRow, calls: seq<AggCall>)
    requires KnownCalls(calls) && ArgsFit(members, calls) && |k.args| == |calls|
    ensures ArgsFit(members + [k], calls)
    ensures forall i | 0 <= i < |calls| ::
              GroupStates(members + [k], calls)[i] == GroupStates(members, calls)[i].Update(k.args[i])
  {
    forall i | 0 <= i < |calls|
      ensures GroupStates(members + [k], calls)[i] == GroupStates(members, calls)[i].Update(k.args[i])
    {
      var column := Argument(members + [k], i);
      assert column[..|members|] == Argument(members, i);
    }
  }

  lemma NoMembersNoUpdates(calls: seq<AggCall>)
    requires KnownCalls(calls)
    ensures GroupStates([], calls) == EmptyStates(calls)
  {
  }

  /** Hash maps that hold exactly the groups of some keyed rows. */
  ghost predicate GroupsHold(groups: map<string, seq<AggState>>, groupKeys: map<string, seq<Value>>,
                             keyed: seq<KeyedRow>, calls: seq<AggCall>)
  {
    && groups.Keys == groupKeys.Keys == Keys(keyed)
    && ArgsFit(keyed, calls)
    && (keyed != [] ==> KnownCalls(calls))
    && forall k | k in groups :: GroupHolds(groups[k], groupKeys[k], Members(keyed, k), calls)
  }

  ghost predicate GroupHolds(states: seq<AggState>, groupVals: seq<Value>, members: seq<KeyedRow>, calls: seq<AggCall>) {
    && members != [] && KnownCalls(calls) && ArgsFit(members, calls)
    && states == GroupStates(members, calls)
    && groupVals == members[|members| - 1].groupVals
  }

  lemma NothingKeyed(groupBy: seq<Expr>, calls: seq<AggCall>, schema: Schema)
    ensures KeyRows([], groupBy, calls, schema) == Ok([])
    ensures GroupsHold(map[], map[], [], calls)
  {
  }

  lemma HeldKeys(groups: map<string, seq<AggState>>, groupKeys: map<string, seq<Value>>,
                 keyed: seq<KeyedRow>, calls: seq<AggCall>)
    requires GroupsHold(groups, groupKeys, keyed, calls)
    ensures groups.Keys == groupKeys.Keys == Keys(keyed)
    ensures keyed == [] ==> groups == map[] && groupKeys == map[]
  {
  }

  /** The states a row starts from: those of its group so far, or fresh ones. */
  lemma StatesBefore(groups: map<string, seq<AggState>>, groupKeys: map<string, seq<Value>>,
                     keyed: seq<KeyedRow>, key: string, calls: seq<AggCall>)
    requires GroupsHold(groups, groupKeys, keyed, calls) && KnownCalls(calls)
    ensures ArgsFit(Members(keyed, key), calls) && |GroupStates(Members(keyed, key), calls)| == |calls|
    ensures (if key in groups then groups[key] else EmptyStates(calls)) == GroupStates(Members(keyed, key), calls)
  {
    MembersFit(keyed, key, calls);
    NoMembersNoUpdates(calls);
    if key in groups {
      assert GroupHolds(groups[key], groupKeys[key], Members(keyed, key), calls);
    }
  }

  lemma GroupHoldsStep(keyed: seq<KeyedRow>, k: KeyedRow, states: seq<AggState>, calls: seq<AggCall>)
    requires KnownCalls(calls) && |k.args| == |calls| && |states| == |calls|
    requires ArgsFit(Members(keyed, k.key), calls)
    requires forall i | 0 <= i < |calls| :: states[i] == GroupStates(Members(keyed, k.key), calls)[i].Update(k.args[i])
    ensures GroupHolds(states, k.groupVals, Members(keyed + [k], k.key), calls)
  {
    hide Members, Keys, Fold;
    var members := Members(keyed, k.key);
    StatesGrow(members, k, calls);
    MembersGrow(keyed, k, k.key);
    assert states == GroupStates(members + [k], calls);
  }

  lemma OtherGroupHolds(groups: map<string, seq<AggState>>, groupKeys: map<string, seq<Value>>,
                        keyed: seq<KeyedRow>, k: KeyedRow, x: string, calls: seq<AggCall>)
    requires GroupsHold(groups, groupKeys, keyed, calls) && x in groups && x in groupKeys && x != k.key
    ensures GroupHolds(groups[x], groupKeys[x], Members(keyed + [k], x), calls)
  {
    hide Members, Keys, GroupHolds;
    MembersGrow(keyed, k, x);
    assert GroupHolds(groups[x], groupKeys[x], Members(keyed, x), calls);
  }

  lemma ArgsStillFit(keyed: seq<KeyedRow>, k: KeyedRow, calls: seq<AggCall>)
    requires ArgsFit(keyed, calls) && |k.args| == |calls|
    ensures ArgsFit(keyed + [k], calls)
  {
  }

  lemma GroupsHoldStep(groups: map<string, seq<AggState>>, groupKeys: map<string, seq<Value>>,
                       keyed: seq<KeyedRow>, k: KeyedRow, states: seq<AggState>, calls: seq<AggCall>)
    requires GroupsHold(groups, groupKeys, keyed, calls) && KnownCalls(calls)
    requires |k.args| == |calls| && |states| == |calls|
    requires ArgsFit(Members(keyed, k.key), calls)
    requires forall i | 0 <= i < |calls| :: states[i] == GroupStates(Members(keyed, k.key), calls)[i].Update(k.args[i])
    ensures GroupsHold(groups[k.key := states], groupKeys[k.key := k.groupVals], keyed + [k], calls)
  {
    hide Members, Keys, GroupStates, KnownCalls, GroupHolds, ArgsFit;
    var groups', groupKeys', keyed' := groups[k.key := states], groupKeys[k.key := k.groupVals], keyed + [k];
    HeldKeys(groups, groupKeys, keyed, calls);
    MembersGrow(keyed, k, k.key);
    GroupHoldsStep(keyed, k, states, calls);
    ArgsStillFit(keyed, k, calls);
    forall x | x in groups && x != k.key ensures GroupHolds(groups[x], groupKeys[x], Members(keyed', x), calls) {
      OtherGroupHolds(groups, groupKeys, keyed, k, x, calls);
    }
    assert groups'.Keys == groupKeys'.Keys == Keys(keyed');
  }

  lemma FirstIsIn(order: seq<string>)
    requires order != []
    ensures order[0] in order
  {
  }

  lemma EnumeratesNothing(order: seq<string>)
    requires Enumerates(order, {})
    ensures order == []
  {
    if order != [] {
      FirstIsIn(order);
      assert false;
    }
  }
}
