/** SUM, AVG, MIN and MAX over values of every kind, in terms of float arithmetic and of the order of values. */
module NumberLaws {
  import opened Wrappers
  import opened Storage
  import opened Planner
  import opened Aggregation
  import opened ExprLaws
  import opened ValueOrder
  import opened AggregateLaws

  predicate Number(v: Value) {
    v.Int? || v.Float?
  }

  /** The values that are not NULL, in order. */
  function Given(vals: seq<Value>): (given: seq<Value>)
    ensures forall i | 0 <= i < |given| :: !given[i].Null? && given[i] in vals
  {
    if vals == [] then []
    else Given(vals[..|vals| - 1]) + if vals[|vals| - 1].Null? then [] else [vals[|vals| - 1]]
  }

  /** The numbers among the values, in order. */
  function Numbers(vals: seq<Value>): (numbers: seq<Value>)
    ensures forall i | 0 <= i < |numbers| :: Number(numbers[i])
  {
    if vals == [] then []
    else Numbers(vals[..|vals| - 1]) + if Number(vals[|vals| - 1]) then [vals[|vals| - 1]] else []
  }

  /** Two integers add up in 64 bits; as soon as one of the numbers is a float both are. */
  function Plus(x: Value, y: Value): (sum: Value)
    requires Number(x) && Number(y)
    ensures Number(sum)
  {
    if x.Int? && y.Int? then Int(Wrap64(x.i + y.i)) else Float(IEEE754.add(AsFloat(x), AsFloat(y)))
  }

  /** The sum of some numbers, from left to right. */
  function SumOf(numbers: seq<Value>): (sum: Value)
    requires numbers != [] && forall i | 0 <= i < |numbers| :: Number(numbers[i])
    ensures Number(sum)
  {
    var n := |numbers| - 1;
    if n == 0 then numbers[0] else Plus(SumOf(numbers[..n]), numbers[n])
  }

  /** NULL without values; a first value that is no number stays, else the sum of all numbers. */
  function RunningSum(vals: seq<Value>): Value {
    if Given(vals) == [] then Null
    else if !Number(Given(vals)[0]) then Given(vals)[0]
    else
      FirstIsNumber(vals);
      SumOf(Numbers(vals))
  }

  lemma {:induction false} FirstIsNumber(vals: seq<Value>)
    requires Given(vals) != [] && Number(Given(vals)[0])
    ensures Numbers(vals) != []
  {
    var n := |vals| - 1;
    if Given(vals[..n]) != [] {
      FirstIsNumber(vals[..n]);
    }
  }

  lemma {:induction false} NothingGiven(vals: seq<Value>)
    requires Given(vals) == []
    ensures Numbers(vals) == []
  {
    if vals != [] {
      NothingGiven(vals[..|vals| - 1]);
    }
  }

  lemma SumOfMore(numbers: seq<Value>, v: Value)
    requires Number(v) && forall i | 0 <= i < |numbers| :: Number(numbers[i])
    ensures SumOf(numbers + [v]) == if numbers == [] then v else Plus(SumOf(numbers), v)
  {
    assert (numbers + [v])[..|numbers|] == numbers;
  }

  /** One more value in a running sum. */
  lemma RunningSumGrows(vals: seq<Value>, v: Value)
    ensures RunningSum(vals + [v]) == if v.Null? then RunningSum(vals) else AddTo(RunningSum(vals), v)
  {
    hide SumOf, Plus, Wrap64;
    var all := vals + [v];
    assert all[..|vals|] == vals;
    assert Given(all) == Given(vals) + (if v.Null? then [] else [v]);
    assert Numbers(all) == Numbers(vals) + (if Number(v) then [v] else []);
    if Given(vals) == [] {
      NothingGiven(vals);
      if Number(v) {
        SumOfMore([], v);
        assert [] + [v] == [v];
      }
    } else {
      assert Given(all)[0] == Given(vals)[0];
      if Number(Given(vals)[0]) {
        FirstIsNumber(vals);
        FirstIsNumber(all);
        if Number(v) {
          SumOfMore(Numbers(vals), v);
          PlusIsAddTo(SumOf(Numbers(vals)), v);
        } else {
          assert Numbers(all) == Numbers(vals);
        }
      }
    }
  }

  lemma PlusIsAddTo(x: Value, y: Value)
    requires Number(x) && Number(y)
    ensures AddTo(x, y) == Plus(x, y)
  {
  }

  lemma {:induction false} SumStates(vals: seq<Value>)
    ensures Fold(SumState(Null), vals) == SumState(RunningSum(vals))
    ensures Fold(AvgState(Null, 0), vals) == AvgState(RunningSum(vals), Wrap64(|Given(vals)|))
  {
    hide RunningSum, AddTo, Wrap64;
    if vals == [] {
      NoSum();
    } else {
      var n := |vals| - 1;
      SumStates(vals[..n]);
      RunningSumGrows(vals[..n], vals[n]);
      assert vals == vals[..n] + [vals[n]];
      WrapUndone(|Given(vals[..n])|, 1);
    }
  }

  lemma NoSum()
    ensures RunningSum([]) == Null && Wrap64(0) == 0
  {
  }

  lemma {:induction false} GivenAtMost(vals: seq<Value>)
    ensures |Given(vals)| <= |vals|
  {
    if vals != [] {
      GivenAtMost(vals[..|vals| - 1]);
    }
  }

  /** SUM and AVG for any values at all. Without a value that is not NULL both are NULL. If the first one is
      a number SUM adds up all numbers from left to right, in floats from the first float on, and AVG divides
      that by the number of values that are not NULL. Otherwise SUM is that first value and AVG is NULL. */
  lemma SumAndAvgOfAnything(vals: seq<Value>)
    requires |vals| < TWO63
    ensures Given(vals) == [] ==> Aggregate("sum", vals) == Aggregate("avg", vals) == Null
    ensures Given(vals) != [] && !Number(Given(vals)[0]) ==>
              Aggregate("sum", vals) == Given(vals)[0] && Aggregate("avg", vals) == Null
    ensures Given(vals) != [] && Number(Given(vals)[0]) ==>
              && Numbers(vals) != []
              && Aggregate("sum", vals) == SumOf(Numbers(vals))
              && Aggregate("avg", vals) == Float(IEEE754.div(AsFloat(SumOf(Numbers(vals))), IEEE754.ofInt(|Given(vals)|)))
  {
    hide Fold, SumOf, Given, Numbers, Wrap64;
    SumStates(vals);
    GivenAtMost(vals);
    WrapOfFitting(|Given(vals)|);
    if Given(vals) != [] && Number(Given(vals)[0]) {
      FirstIsNumber(vals);
    }
  }

  // MIN and MAX.

  predicate AllOneKind(vals: seq<Value>) {
    forall i, j | 0 <= i < |vals| && 0 <= j < |vals| :: OneKind(vals[i], vals[j])
  }

  /** The first of the values that no other is before. */
  ghost predicate FirstLeast(m: Value, vals: seq<Value>, i: nat) {
    && i < |vals| && vals[i] == m
    && (forall j | 0 <= j < |vals| :: !Before(vals[j], m))
    && (forall j | 0 <= j < i :: Before(m, vals[j]))
  }

  /** The first of the values that is before no other. */
  ghost predicate FirstGreatest(m: Value, vals: seq<Value>, i: nat) {
    && i < |vals| && vals[i] == m
    && (forall j | 0 <= j < |vals| :: !Before(m, vals[j]))
    && (forall j | 0 <= j < i :: Before(vals[j], m))
  }

  lemma StillBefore(v: Value, m: Value, g: Value)
    requires OneKind(v, m) && OneKind(m, g) && OneKind(v, g)
    ensures Before(v, m) && !Before(g, m) ==> Before(v, g)
    ensures Before(m, v) && !Before(m, g) ==> Before(g, v)
    ensures !(Before(v, m) && Before(m, v)) && !Before(v, v)
  {
    hide Before, Alike;
    PartialCmpIs(v, m);
    PartialCmpIs(v, v);
    if Before(v, m) && !Before(g, m) && !Before(v, g) {
      NotBeforeTransitive(m, g, v);
      assert false;
    }
    if Before(m, v) && !Before(m, g) && !Before(g, v) {
      NotBeforeTransitive(v, g, m);
      assert false;
    }
  }

  lemma OneMoreLeast(vals: seq<Value>, v: Value, m: Value, i: nat)
    requires AllOneKind(vals + [v]) && FirstLeast(m, vals, i)
    ensures if Before(v, m) then FirstLeast(v, vals + [v], |vals|) else FirstLeast(m, vals + [v], i)
  {
    hide Before, OneKind;
    var all := vals + [v];
    forall j | 0 <= j < |vals| ensures Before(v, m) ==> Before(v, vals[j]) && !Before(vals[j], v) {
      assert OneKind(all[|vals|], all[i]) && OneKind(all[i], all[j]) && OneKind(all[|vals|], all[j]) && OneKind(all[j], all[|vals|]);
      StillBefore(v, m, vals[j]);
      StillBefore(v, vals[j], vals[j]);
    }
    assert OneKind(all[|vals|], all[|vals|]);
    StillBefore(v, v, v);
  }

  lemma OneMoreGreatest(vals: seq<Value>, v: Value, m: Value, i: nat)
    requires AllOneKind(vals + [v]) && FirstGreatest(m, vals, i)
    ensures if Before(m, v) then FirstGreatest(v, vals + [v], |vals|) else FirstGreatest(m, vals + [v], i)
  {
    hide Before, OneKind;
    var all := vals + [v];
    forall j | 0 <= j < |vals| ensures Before(m, v) ==> Before(vals[j], v) && !Before(v, vals[j]) {
      assert OneKind(all[|vals|], all[i]) && OneKind(all[i], all[j]) && OneKind(all[|vals|], all[j]) && OneKind(all[j], all[|vals|]);
      StillBefore(v, m, vals[j]);
      StillBefore(v, vals[j], vals[j]);
    }
    assert OneKind(all[|vals|], all[|vals|]);
    StillBefore(v, v, v);
  }

  lemma GivenLast(vals: seq<Value>)
    requires vals != []
    ensures var n := |vals| - 1; Given(vals) == Given(vals[..n]) + if vals[n].Null? then [] else [vals[n]]
  {
  }

  lemma OneKindFront(vals: seq<Value>, v: Value)
    requires AllOneKind(vals + [v])
    ensures AllOneKind(vals) && OneKind(v, v)
  {
    hide OneKind;
    var all := vals + [v];
    forall i, j | 0 <= i < |vals| && 0 <= j < |vals| ensures OneKind(vals[i], vals[j]) {
      assert OneKind(all[i], all[j]);
    }
    assert OneKind(all[|vals|], all[|vals|]);
  }

  /** The states of MIN and MAX: NULL so far, or the first least and the first greatest value. */
  lemma {:induction false} ExtremeStates(vals: seq<Value>) returns (least: Value, greatest: Value, i: nat, j: nat)
    requires AllOneKind(Given(vals))
    ensures Fold(MinState(Null), vals) == MinState(least) && Fold(MaxState(Null), vals) == MaxState(greatest)
    ensures if Given(vals) == [] then least == Null && greatest == Null
            else FirstLeast(least, Given(vals), i) && FirstGreatest(greatest, Given(vals), j)
  {
    hide Given, Before, OneKind, AllOneKind;
    least, greatest, i, j := Null, Null, 0, 0;
    if vals == [] {
      NoneGiven();
    } else {
      var n := |vals| - 1;
      var front, v := Given(vals[..n]), vals[n];
      GivenLast(vals);
      if v.Null? {
        assert front + [] == front;
        least, greatest, i, j := ExtremeStates(vals[..n]);
      } else {
        OneKindFront(front, v);
        least, greatest, i, j := ExtremeStates(vals[..n]);
        if front == [] {
          assert [] + [v] == [v];
          OnlyOne(v);
          least, greatest, i, j := v, v, 0, 0;
        } else {
          OneMoreLeast(front, v, least, i);
          OneMoreGreatest(front, v, greatest, j);
          PartialCmpIs(v, least);
          PartialCmpIs(v, greatest);
          if Before(v, least) {
            least, i := v, |front|;
          }
          if Before(greatest, v) {
            greatest, j := v, |front|;
          }
        }
      }
    }
  }

  lemma NoneGiven()
    ensures Given([]) == []
  {
  }

  lemma OnlyOne(v: Value)
    requires OneKind(v, v)
    ensures FirstLeast(v, [v], 0) && FirstGreatest(v, [v], 0)
  {
    hide Before, OneKind;
    StillBefore(v, v, v);
  }

  /** MIN and MAX over one comparable kind, strings, Booleans and floats without NaN included: the first of
      the values that bounds them all, NULL without any. */
  lemma ExtremesOfOneKind(vals: seq<Value>)
    requires AllOneKind(Given(vals))
    ensures Given(vals) == [] ==> Aggregate("min", vals) == Aggregate("max", vals) == Null
    ensures Given(vals) != [] ==> exists i: nat :: FirstLeast(Aggregate("min", vals), Given(vals), i)
    ensures Given(vals) != [] ==> exists i: nat :: FirstGreatest(Aggregate("max", vals), Given(vals), i)
  {
    hide Fold, Given, AllOneKind, FirstLeast, FirstGreatest;
    var least, greatest, i, j := ExtremeStates(vals);
    assert Aggregate("min", vals) == least && Aggregate("max", vals) == greatest;
    if Given(vals) != [] {
      assert FirstLeast(least, Given(vals), i) && FirstGreatest(greatest, Given(vals), j);
    }
  }

  /** Over values of any kinds MIN and MAX are among the values. */
  lemma {:induction false} ExtremesAreGiven(vals: seq<Value>)
    ensures Fold(MinState(Null), vals).MinState? && Fold(MaxState(Null), vals).MaxState?
    ensures Given(vals) != [] ==> Aggregate("min", vals) in Given(vals) && Aggregate("max", vals) in Given(vals)
    ensures Given(vals) == [] ==> Aggregate("min", vals) == Aggregate("max", vals) == Null
  {
    hide Given;
    if vals == [] {
      NoneGiven();
    } else {
      var n := |vals| - 1;
      ExtremesAreGiven(vals[..n]);
      GivenLast(vals);
      var front := Given(vals[..n]);
      if vals[n].Null? {
        assert front + [] == front;
      } else {
        assert Given(vals)[|front|] == vals[n];
        var least, greatest := Aggregate("min", vals[..n]), Aggregate("max", vals[..n]);
        if front != [] {
          var i, j :| 0 <= i < |front| && 0 <= j < |front| && front[i] == least && front[j] == greatest;
          assert Given(vals)[i] == least && Given(vals)[j] == greatest;
        }
      }
    }
  }
}
