/** The planner's aggregate rewrite: calls become columns of the Agg output (src/planner.rs). */
module AggregateRewrite {
  import opened Wrappers
  import opened Storage
  import opened Catalog
  import opened Planner

  predicate HasAggFuncs(expr: Expr) {
    match expr
    case FuncCall(func, _) => IsAggregateName(func)
    case BinaryOp(_, left, right) => HasAggFuncs(left) || HasAggFuncs(right)
    case _ => false
  }

  predicate Named(calls: seq<AggCall>, name: string) {
    exists i :: 0 <= i < |calls| && calls[i].name == name
  }

  function WithCall(calls: seq<AggCall>, func: string, arg: Expr): seq<AggCall> {
    if Named(calls, CallName(func, arg)) then calls else calls + [AggCall(func, arg, CallName(func, arg))]
  }

  /** The rewritten expression and the calls collected after it. */
  function Extracted(expr: Expr, calls: seq<AggCall>): (Expr, seq<AggCall>) {
    match expr
    case FuncCall(func, arg) =>
      if IsAggregateName(func) then (ColRef(CallName(func, arg)), WithCall(calls, func, arg))
      else (expr, calls)
    case BinaryOp(op, left, right) =>
      var (l, afterLeft) := Extracted(left, calls);
      var (r, afterRight) := Extracted(right, afterLeft);
      (BinaryOp(op, l, r), afterRight)
    case _ => (expr, calls)
  }

  type Items = seq<(Expr, string)>

  function ExtractedItems(items: Items, calls: seq<AggCall>): (r: (Items, seq<AggCall>))
    ensures |r.0| == |items|
  {
    if items == [] then ([], calls)
    else
      var (e, after) := Extracted(items[0].0, calls);
      var (rest, all) := ExtractedItems(items[1..], after);
      ([(e, items[0].1)] + rest, all)
  }

  predicate IsAggregateQuery(groupBy: seq<Expr>, items: Items) {
    groupBy != [] || exists i :: 0 <= i < |items| && HasAggFuncs(items[i].0)
  }

  /** The projection of a query over its FROM and WHERE part. */
  function BoundProjection(child: LogicalPlan, groupBy: seq<Expr>, items: Items): LogicalPlan {
    if IsAggregateQuery(groupBy, items) then
      var (rewritten, calls) := ExtractedItems(items, []);
      Project(Agg(child, groupBy, calls), rewritten)
    else Project(child, items)
  }

  /** The vector of aggregate calls shared by all select items. */
  class AggregateList {
    var calls: seq<AggCall>

    constructor ()
      ensures calls == []
    {
      calls := [];
    }

    method Extract(expr: Expr) returns (out: Expr)
      modifies this
      ensures (out, calls) == Extracted(expr, old(calls))
      decreases expr
    {
      match expr
      case FuncCall(func, arg) =>
        if IsAggregateName(func) {
          var genName := CallName(func, arg);
          var known := IsNamed(genName);
          if !known {
            calls := calls + [AggCall(func, arg, genName)];
          }
          out := ColRef(genName);
        } else {
          out := expr;
        }
      case BinaryOp(op, left, right) =>
        var l := Extract(left);
        var r := Extract(right);
        out := BinaryOp(op, l, r);
      case _ =>
        out := expr;
    }

    method IsNamed(name: string) returns (found: bool)
      ensures found == Named(calls, name)
    {
      found := false;
      for i := 0 to |calls|
        invariant forall j | 0 <= j < i :: calls[j].name != name
      {
        if calls[i].name == name {
          return true;
        }
      }
    }
  }

  method BindProjection(child: LogicalPlan, groupBy: seq<Expr>, items: Items) returns (plan: LogicalPlan)
    ensures plan == BoundProjection(child, groupBy, items)
  {
    var isAggQuery := groupBy != [];
    for i := 0 to |items|
      invariant isAggQuery == (groupBy != [] || exists j :: 0 <= j < i && HasAggFuncs(items[j].0))
    {
      isAggQuery := isAggQuery || HasAggFuncs(items[i].0);
    }
    if !isAggQuery {
      return Project(child, items);
    }
    var aggFuncs := new AggregateList();
    var rewritten: Items := [];
    assert items[0..] == items && [] + ExtractedItems(items, []).0 == ExtractedItems(items, []).0;
    for i := 0 to |items|
      invariant fresh(aggFuncs)
      invariant ExtractedItems(items, []) ==
                (rewritten + ExtractedItems(items[i..], aggFuncs.calls).0, ExtractedItems(items[i..], aggFuncs.calls).1)
    {
      ghost var before := aggFuncs.calls;
      var e := aggFuncs.Extract(items[i].0);
      assert items[i..][1..] == items[i + 1..];
      assert rewritten + ([(e, items[i].1)] + ExtractedItems(items[i + 1..], aggFuncs.calls).0) ==
             (rewritten + [(e, items[i].1)]) + ExtractedItems(items[i + 1..], aggFuncs.calls).0;
      rewritten := rewritten + [(e, items[i].1)];
    }
    assert rewritten + [] == rewritten;
    plan := Project(Agg(child, groupBy, aggFuncs.calls), rewritten);
  }

  // The shape of what the rewrite leaves behind.

  predicate DistinctNames(calls: seq<AggCall>) {
    forall i, j | 0 <= i < j < |calls| :: calls[i].name != calls[j].name
  }

  /** The aggregate calls of an expression, left to right. */
  function CallsIn(expr: Expr): seq<(string, Expr)> {
    match expr
    case FuncCall(func, arg) => if IsAggregateName(func) then [(func, arg)] else []
    case BinaryOp(_, left, right) => CallsIn(left) + CallsIn(right)
    case _ => []
  }

  function CallsInItems(items: Items): seq<(string, Expr)> {
    if items == [] then [] else CallsIn(items[0].0) + CallsInItems(items[1..])
  }

  /** An expression has aggregates exactly if it contains a call of one, anywhere. */
  lemma {:induction false} HasAggFuncsIff(expr: Expr)
    ensures HasAggFuncs(expr) <==> CallsIn(expr) != []
  {
    if expr.BinaryOp? {
      HasAggFuncsIff(expr.left);
      HasAggFuncsIff(expr.right);
    }
  }

  /** A query is grouped exactly if it has GROUP BY or some select item contains an aggregate call. */
  lemma {:induction false} IsAggregateQueryIff(groupBy: seq<Expr>, items: Items)
    ensures IsAggregateQuery(groupBy, items) <==> groupBy != [] || CallsInItems(items) != []
    decreases items
  {
    hide HasAggFuncs, CallsIn;
    if items != [] {
      HasAggFuncsIff(items[0].0);
      IsAggregateQueryIff([], items[1..]);
      if i :| 0 <= i < |items| && HasAggFuncs(items[i].0) && i > 0 {
        assert HasAggFuncs(items[1..][i - 1].0);
      }
      if i :| 0 <= i < |items| - 1 && HasAggFuncs(items[1..][i].0) {
        assert HasAggFuncs(items[i + 1].0);
      }
    }
  }

  /** Collected calls carry their generated names and come from a list of calls. */
  predicate From(calls: seq<AggCall>, source: seq<(string, Expr)>) {
    forall i | 0 <= i < |calls| ::
      && calls[i].name == CallName(calls[i].func, calls[i].arg)
      && IsAggregateName(calls[i].func)
      && (calls[i].func, calls[i].arg) in source
  }

  /** After the rewrite no aggregate call is left, every call has a column of its name, and the
      list of calls has only grown, at its end, by calls of the expression under fresh names. */
  lemma {:induction false} ExtractionIsComplete(expr: Expr, calls: seq<AggCall>, source: seq<(string, Expr)>)
    requires DistinctNames(calls) && From(calls, source)
    requires forall c | c in CallsIn(expr) :: c in source
    ensures var (out, after) := Extracted(expr, calls);
            && !HasAggFuncs(out)
            && calls <= after
            && DistinctNames(after) && From(after, source)
            && forall c | c in CallsIn(expr) :: Named(after, CallName(c.0, c.1))
  {
    hide CallName;
    match expr
    case FuncCall(func, arg) =>
      if IsAggregateName(func) {
        var after := WithCall(calls, func, arg);
        assert (func, arg) in CallsIn(expr);
        if !Named(calls, CallName(func, arg)) {
          assert after[|calls|].name == CallName(func, arg);
          forall i | 0 <= i < |after| ensures (after[i].func, after[i].arg) in source {
          }
        }
      }
    case BinaryOp(op, left, right) =>
      var (l, afterLeft) := Extracted(left, calls);
      var (r, afterRight) := Extracted(right, afterLeft);
      assert forall c | c in CallsIn(left) :: c in CallsIn(expr);
      assert forall c | c in CallsIn(right) :: c in CallsIn(expr);
      ExtractionIsComplete(left, calls, source);
      ExtractionIsComplete(right, afterLeft, source);
      forall c | c in CallsIn(left) ensures Named(afterRight, CallName(c.0, c.1)) {
        StaysNamed(afterLeft, afterRight, CallName(c.0, c.1));
      }
    case _ =>
  }

  lemma StaysNamed(calls: seq<AggCall>, after: seq<AggCall>, name: string)
    requires calls <= after && Named(calls, name)
    ensures Named(after, name)
  {
    var i :| 0 <= i < |calls| && calls[i].name == name;
    assert after[i].name == name;
  }

  lemma {:induction false} ItemsAreComplete(items: Items, calls: seq<AggCall>, source: seq<(string, Expr)>)
    requires DistinctNames(calls) && From(calls, source)
    requires forall c | c in CallsInItems(items) :: c in source
    ensures var (out, after) := ExtractedItems(items, calls);
            && (forall i | 0 <= i < |items| :: !HasAggFuncs(out[i].0) && out[i].1 == items[i].1)
            && calls <= after
            && DistinctNames(after) && From(after, source)
            && forall c | c in CallsInItems(items) :: Named(after, CallName(c.0, c.1))
  {
    hide CallName, Extracted, HasAggFuncs, From, DistinctNames;
    if items != [] {
      var (e, mid) := Extracted(items[0].0, calls);
      var (rest, after) := ExtractedItems(items[1..], mid);
      assert forall c | c in CallsIn(items[0].0) :: c in CallsInItems(items);
      assert forall c | c in CallsInItems(items[1..]) :: c in CallsInItems(items);
      ExtractionIsComplete(items[0].0, calls, source);
      ItemsAreComplete(items[1..], mid, source);
      forall c | c in CallsIn(items[0].0) ensures Named(after, CallName(c.0, c.1)) {
        StaysNamed(mid, after, CallName(c.0, c.1));
      }
    }
  }

  /** Each rewritten item depends on the calls before it only through the final list. */
  lemma {:induction false} RewriteIgnoresCalls(expr: Expr, calls: seq<AggCall>, others: seq<AggCall>)
    ensures Extracted(expr, calls).0 == Extracted(expr, others).0
  {
    if expr.BinaryOp? {
      RewriteIgnoresCalls(expr.left, calls, others);
      RewriteIgnoresCalls(expr.right, Extracted(expr.left, calls).1, Extracted(expr.left, others).1);
    }
  }

  lemma {:induction false} RewrittenItem(items: Items, calls: seq<AggCall>, i: nat)
    requires i < |items|
    ensures ExtractedItems(items, calls).0[i] == (Extracted(items[i].0, []).0, items[i].1)
  {
    hide Extracted;
    RewriteIgnoresCalls(items[0].0, calls, []);
    if i > 0 {
      RewrittenItem(items[1..], Extracted(items[0].0, calls).1, i - 1);
    }
  }

  /** Two different calls with one generated name: the later one vanishes from the list and reads
      the column of the earlier one. */
  lemma ClashingCallVanishes(func: string, arg: Expr, other: Expr)
    requires IsAggregateName(func) && CallName(func, arg) == CallName(func, other)
    ensures var first := [AggCall(func, arg, CallName(func, arg))];
            Extracted(FuncCall(func, other), first) == (ColRef(CallName(func, arg)), first)
  {
    assert [AggCall(func, arg, CallName(func, arg))][0].name == CallName(func, other);
  }

  /** Literals of different types do clash: MIN('1') and MIN(1). */
  lemma LiteralsClash()
    ensures CallName("min", Const(Varchar("1"))) == CallName("min", Const(Int(1)))
    ensures Const(Varchar("1")) != Const(Int(1))
  {
    assert ShowInt(1) == ShowNat(1) == [Digit(1)] == "1";
    assert ExprName(Const(Int(1))) == Int(1).Display() == "1";
    assert ExprName(Const(Varchar("1"))) == Varchar("1").Display() == "1";
  }
}
