/** Aggregates over integers and NULLs: what they compute, and that row order does not matter. */
module AggregateLaws {
  import opened Wrappers
  import opened Storage
  import opened Planner
  import opened Aggregation
  import opened ExprLaws

  predicate IntOrNull(vals: seq<Value>) {
    forall i | 0 <= i < |vals| :: vals[i].Int? || vals[i].Null?
  }

  /** The integers among the values, in order. */
  function Ints(vals: seq<Value>): seq<int> {
    if vals == [] then []
    else Ints(vals[..|vals| - 1]) + if vals[|vals| - 1].Int? then [vals[|vals| - 1].i] else []
  }

  function Sum(xs: seq<int>): int {
    if xs == [] then 0 else Sum(xs[..|xs| - 1]) + xs[|xs| - 1]
  }

  ghost predicate IsLeast(m: int, xs: seq<int>) {
    m in xs && forall x | x in xs :: m <= x
  }

  ghost predicate IsGreatest(m: int, xs: seq<int>) {
    m in xs && forall x | x in xs :: x <= m
  }

  lemma OneMore(xs: seq<int>, v: int)
    ensures Sum(xs + [v]) == Sum(xs) + v
  {
    assert (xs + [v])[..|xs|] == xs;
  }

  function NonNulls(vals: seq<Value>): int {
    |vals| - multiset(vals)[Null]
  }

  lemma OneMoreNonNull(vals: seq<Value>)
    requires vals != []
    ensures NonNulls(vals) == NonNulls(vals[..|vals| - 1]) + if vals[|vals| - 1].Null? then 0 else 1
  {
    assert vals == vals[..|vals| - 1] + [vals[|vals| - 1]];
  }

  lemma {:induction false} CountState64(vals: seq<Value>)
    ensures Fold(CountState(0), vals) == CountState(Wrap64(NonNulls(vals)))
  {
    hide Wrap64, NonNulls;
    if vals == [] {
      NoValues();
    } else {
      CountState64(vals[..|vals| - 1]);
      OneMoreNonNull(vals);
      WrapUndone(NonNulls(vals[..|vals| - 1]), 1);
    }
  }

  /** COUNT counts the values that are not NULL, whatever they are. */
  lemma CountIsExact(vals: seq<Value>)
    requires |vals| < TWO63
    ensures Aggregate("count", vals).Int? && Aggregate("count", vals).i == |vals| - multiset(vals)[Null]
  {
    hide Wrap64, Fold;
    CountState64(vals);
    WrapOfFitting(NonNulls(vals));
  }

  lemma {:induction false} CountKeepsState(vals: seq<Value>)
    ensures Fold(CountState(0), vals).CountState?
  {
    if vals != [] {
      CountKeepsState(vals[..|vals| - 1]);
    }
  }

  function SumValue(xs: seq<int>): Value {
    if xs == [] then Null else Int(Wrap64(Sum(xs)))
  }

  lemma OneMoreValue(xs: seq<int>, v: i64)
    ensures AddTo(SumValue(xs), Int(v)) == SumValue(xs + [v])
  {
    hide Wrap64;
    OneMore(xs, v);
    WrapUndone(Sum(xs), v);
    FitsItself(v);
  }

  lemma {:induction false} SumAndCount(vals: seq<Value>)
    requires IntOrNull(vals)
    ensures Fold(SumState(Null), vals) == SumState(SumValue(Ints(vals)))
    ensures Fold(AvgState(Null, 0), vals) == AvgState(SumValue(Ints(vals)), Wrap64(|Ints(vals)|))
  {
    hide Wrap64, SumValue, AddTo;
    if vals == [] {
      NoValues();
    } else {
      var front, last := vals[..|vals| - 1], vals[|vals| - 1];
      SumAndCount(front);
      if last.Int? {
        OneMoreValue(Ints(front), last.i);
        WrapUndone(|Ints(front)|, 1);
      } else {
        assert Ints(front) + [] == Ints(front);
      }
    }
  }

  lemma NoValues()
    ensures SumValue([]) == Null && Wrap64(0) == 0 && NonNulls([]) == 0
  {
  }

  /** SUM over integers and NULLs is NULL without integers. Otherwise it is the 64-bit sum, which is exact
      if and only if the true sum fits: what wraps around on the way wraps back. */
  lemma SumIsExactIff(vals: seq<Value>)
    requires IntOrNull(vals)
    ensures Aggregate("sum", vals) == if Ints(vals) == [] then Null else Int(Wrap64(Sum(Ints(vals))))
    ensures Ints(vals) != [] ==> (Aggregate("sum", vals).i == Sum(Ints(vals)) <==> InI64(Sum(Ints(vals))))
  {
    hide Wrap64, InI64, Ints, Fold;
    SumAndCount(vals);
    WrapOfFitting(Sum(Ints(vals)));
  }

  lemma {:induction false} IntsAtMost(vals: seq<Value>)
    ensures |Ints(vals)| <= |vals|
  {
    if vals != [] {
      IntsAtMost(vals[..|vals| - 1]);
    }
  }

  /** AVG divides that sum by the number of integers, in floats. */
  lemma AvgIsExact(vals: seq<Value>)
    requires IntOrNull(vals) && |vals| < TWO63
    ensures Aggregate("avg", vals) ==
            if Ints(vals) == [] then Null
            else Float(IEEE754.div(IEEE754.ofInt(Wrap64(Sum(Ints(vals)))), IEEE754.ofInt(|Ints(vals)|)))
  {
    hide Wrap64, Ints, Fold, Sum;
    SumAndCount(vals);
    IntsAtMost(vals);
    WrapOfFitting(|Ints(vals)|);
  }

  lemma {:induction false} MinIsLeast(vals: seq<Value>)
    requires IntOrNull(vals)
    ensures Fold(MinState(Null), vals).MinState?
    ensures var m := Aggregate("min", vals);
            if Ints(vals) == [] then m == Null else m.Int? && IsLeast(m.i, Ints(vals))
  {
    if vals != [] {
      MinIsLeast(vals[..|vals| - 1]);
    }
  }

  lemma {:induction false} MaxIsGreatest(vals: seq<Value>)
    requires IntOrNull(vals)
    ensures Fold(MaxState(Null), vals).MaxState?
    ensures var m := Aggregate("max", vals);
            if Ints(vals) == [] then m == Null else m.Int? && IsGreatest(m.i, Ints(vals))
  {
    if vals != [] {
      MaxIsGreatest(vals[..|vals| - 1]);
    }
  }

  // Order independence.

  lemma {:induction false} IntsBag(vals: seq<Value>, x: int)
    ensures multiset(Ints(vals))[x] == multiset(vals)[Int(x)]
  {
    if vals != [] {
      IntsBag(vals[..|vals| - 1], x);
      assert vals == vals[..|vals| - 1] + [vals[|vals| - 1]];
    }
  }

  lemma {:induction false} SumWithout(xs: seq<int>, i: nat)
    requires i < |xs|
    ensures Sum(xs) == Sum(xs[..i] + xs[i + 1..]) + xs[i]
  {
    var n := |xs| - 1;
    if i == n {
      assert xs[..i] + xs[i + 1..] == xs[..n];
    } else {
      SumWithout(xs[..n], i);
      var rest := xs[..i] + xs[i + 1..];
      assert rest[..n - 1] == xs[..n][..i] + xs[..n][i + 1..];
    }
  }

  lemma {:induction false} SumOfBag(xs: seq<int>, ys: seq<int>)
    requires multiset(xs) == multiset(ys)
    ensures Sum(xs) == Sum(ys) && |xs| == |ys|
    decreases |xs|
  {
    assert |xs| == |multiset(xs)| == |multiset(ys)| == |ys|;
    if xs != [] {
      var n := |xs| - 1;
      assert xs == xs[..n] + [xs[n]];
      assert xs[n] in multiset(ys);
      var i :| 0 <= i < |ys| && ys[i] == xs[n];
      SumWithout(ys, i);
      assert ys == ys[..i] + [ys[i]] + ys[i + 1..];
      assert multiset(ys[..i] + ys[i + 1..]) == multiset(ys) - multiset{ys[i]};
      assert multiset(xs[..n]) == multiset(xs) - multiset{xs[n]};
      SumOfBag(xs[..n], ys[..i] + ys[i + 1..]);
    }
  }

  lemma SameInts(vals: seq<Value>, others: seq<Value>)
    requires multiset(vals) == multiset(others)
    ensures multiset(Ints(vals)) == multiset(Ints(others))
  {
    forall x ensures multiset(Ints(vals))[x] == multiset(Ints(others))[x] {
      IntsBag(vals, x);
      IntsBag(others, x);
    }
  }

  lemma SameElements(xs: seq<int>, ys: seq<int>)
    requires multiset(xs) == multiset(ys)
    ensures forall x :: x in xs <==> x in ys
  {
    forall x ensures x in xs <==> x in ys {
      assert x in xs <==> x in multiset(xs);
      assert x in ys <==> x in multiset(ys);
    }
  }

  /** On integers and NULLs no aggregate depends on the order of its inputs. */
  lemma OrderDoesNotMatter(func: string, vals: seq<Value>, others: seq<Value>)
    requires IsAggregateName(func)
    requires IntOrNull(vals) && multiset(vals) == multiset(others)
    ensures Aggregate(func, vals) == Aggregate(func, others)
  {
    hide Fold, Sum, Ints;
    assert |vals| == |multiset(vals)| == |multiset(others)| == |others|;
    forall i | 0 <= i < |others| ensures others[i].Int? || others[i].Null? {
      assert others[i] in multiset(vals);
    }
    SameInts(vals, others);
    SumOfBag(Ints(vals), Ints(others));
    SameElements(Ints(vals), Ints(others));
    if func == "count" {
      CountState64(vals);
      CountState64(others);
    } else if func == "sum" || func == "avg" {
      SumAndCount(vals);
      SumAndCount(others);
    } else if func == "min" {
      MinIsLeast(vals);
      MinIsLeast(others);
    } else {
      MaxIsGreatest(vals);
      MaxIsGreatest(others);
    }
  }
}
