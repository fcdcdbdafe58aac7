/** Generated names of aggregate calls: when they tell calls apart, and grouped queries whose calls take
    columns or a star, for which they always do. */
module CallNames {
  import opened Wrappers
  import opened Storage
  import opened Catalog
  import opened Planner
  import opened Aggregation
  import opened Meaning
  import opened AggregateRewrite
  import opened GroupedQuery
  import GroupKey

  lemma SplitAtFirst(x: string, r: string, y: string, s: string, c: char)
    requires c !in x && c !in y
    requires x + [c] + r == y + [c] + s
    ensures x == y && r == s
  {
    var whole := x + [c] + r;
    assert whole[|x|] == c && whole[|y|] == c;
    assert forall k | 0 <= k < |x| :: whole[k] == x[k];
    assert forall k | 0 <= k < |y| :: whole[k] == y[k];
    assert whole[..|x|] == x && whole[..|y|] == y;
    assert whole[|x| + 1..] == r && whole[|y| + 1..] == s;
  }

  lemma SameFront(x: string, y: string, end: string)
    requires x + end == y + end
    ensures x == y
  {
    assert |x| == |y|;
    assert (x + end)[..|x|] == x && (y + end)[..|y|] == y;
  }

  /** Two calls of known aggregates have one name exactly if they are of one function and their arguments
      have one name. */
  lemma CallNameIff(f: string, a: Expr, g: string, b: Expr)
    requires IsAggregateName(f) && IsAggregateName(g)
    ensures CallName(f, a) == CallName(g, b) <==> f == g && ExprName(a) == ExprName(b)
  {
    hide ExprName;
    if CallName(f, a) == CallName(g, b) {
      var x, y := ExprName(a), ExprName(b);
      assert CallName(f, a) == (f + "(" + x) + ")" && CallName(g, b) == (g + "(" + y) + ")";
      SameFront(f + "(" + x, g + "(" + y, ")");
      SplitAtFirst(f, x, g, y, '(');
    }
  }

  lemma Bracketed(open: string, a: string, gap: string, op: string, b: string, close: string)
    ensures open + a + gap + op + gap + b + close == open + (a + gap + (op + gap + (b + close)))
  {
    assert open + a + gap == open + (a + gap);
    assert open + a + gap + op + gap == open + (a + gap + (op + gap));
  }

  predicate NoSpace(s: string) {
    ' ' !in s
  }

  /** The name of a plain column is the column's; the name of a binary expression over plain columns tells
      its operator and both operands. */
  lemma BinaryNameIff(op: string, a: string, b: string, op2: string, c: string, d: string)
    requires NoSpace(op) && NoSpace(a) && NoSpace(b) && NoSpace(op2) && NoSpace(c) && NoSpace(d)
    ensures ExprName(ColRef(a)) == a && ExprName(Star) == "*"
    ensures ExprName(BinaryOp(op, ColRef(a), ColRef(b))) == ExprName(BinaryOp(op2, ColRef(c), ColRef(d))) <==>
            op == op2 && a == c && b == d
  {
    var one, two := ExprName(BinaryOp(op, ColRef(a), ColRef(b))), ExprName(BinaryOp(op2, ColRef(c), ColRef(d)));
    assert ExprName(ColRef(a)) == a && ExprName(ColRef(b)) == b && ExprName(ColRef(c)) == c && ExprName(ColRef(d)) == d;
    if one == two {
      var x, y := a + " " + (op + " " + (b + ")")), c + " " + (op2 + " " + (d + ")"));
      assert one == "(" + x by {
        Bracketed("(", a, " ", op, b, ")");
      }
      assert two == "(" + y by {
        Bracketed("(", c, " ", op2, d, ")");
      }
      assert x == one[1..] == two[1..] == y;
      assert " " == [' '];
      SplitAtFirst(a, op + " " + (b + ")"), c, op2 + " " + (d + ")"), ' ');
      SplitAtFirst(op, b + ")", op2, d + ")", ' ');
      SameFront(b, d, ")");
    }
  }

  /** The name of a literal is what it is displayed as; integers have different names. */
  lemma LiteralNames(a: i64, b: i64, s: string)
    ensures ExprName(Const(Null)) == "NULL" && ExprName(Const(Bool(true))) == "true" && ExprName(Const(Bool(false))) == "false"
    ensures ExprName(Const(Varchar(s))) == s
    ensures ExprName(Const(Int(a))) == ExprName(Const(Int(b))) <==> a == b
    ensures 0 <= a <= 9 ==> ExprName(Const(Int(a))) == ["0123456789"[a]]
    ensures a < 0 ==> ExprName(Const(Int(a))) == "-" + ShowNat(-(a as int))
  {
    GroupKey.ShowIntReadsBack(a);
    GroupKey.ShowIntReadsBack(b);
  }

  // Queries whose calls take columns or a star.

  /** A name as a client writes it: no parenthesis, and not the star. */
  predicate PlainName(name: string) {
    '(' !in name && name != "*"
  }

  predicate PlainArg(arg: Expr) {
    arg.Star? || (arg.ColRef? && PlainName(arg.name))
  }

  /** Aggregate calls of columns or of the star, grouped by columns. */
  predicate PlainQuery(items: Items, groupBy: seq<Expr>) {
    && (forall c | c in CallsInItems(items) :: PlainArg(c.1))
    && (forall i | 0 <= i < |groupBy| :: groupBy[i].ColRef? && PlainName(groupBy[i].name))
  }

  lemma PlainArgIff(a: Expr, b: Expr)
    requires PlainArg(a) && PlainArg(b)
    ensures ExprName(a) == ExprName(b) <==> a == b
  {
  }

  lemma {:induction false} CallsAreKnown(expr: Expr)
    ensures forall c | c in CallsIn(expr) :: IsAggregateName(c.0)
  {
    if expr.BinaryOp? {
      CallsAreKnown(expr.left);
      CallsAreKnown(expr.right);
    }
  }

  lemma {:induction false} ItemCallsAreKnown(items: Items)
    ensures forall c | c in CallsInItems(items) :: IsAggregateName(c.0)
  {
    if items != [] {
      CallsAreKnown(items[0].0);
      ItemCallsAreKnown(items[1..]);
    }
  }

  lemma PlainCallsNamedApart(items: Items, groupBy: seq<Expr>)
    requires PlainQuery(items, groupBy)
    ensures NamedApart(CallsInItems(items))
  {
    hide CallName, IsAggregateName, CallsInItems, PlainArg;
    var source := CallsInItems(items);
    ItemCallsAreKnown(items);
    forall i, j | 0 <= i < |source| && 0 <= j < |source| && CallName(source[i].0, source[i].1) == CallName(source[j].0, source[j].1)
      ensures source[i] == source[j]
    {
      assert source[i] in source && source[j] in source;
      CallNameIff(source[i].0, source[i].1, source[j].0, source[j].1);
      PlainArgIff(source[i].1, source[j].1);
    }
  }

  lemma {:induction false} BaseNameIn(name: string)
    ensures forall c | c in BaseName(name) :: c in name
    ensures '.' in name ==> |BaseName(name)| < |name|
    ensures '.' !in BaseName(name)
  {
    if name != "" && name[|name| - 1] != '.' {
      var n := |name| - 1;
      BaseNameIn(name[..n]);
      assert name == name[..n] + [name[n]];
    }
  }

  /** The base of a string in which a dot comes after the last parenthesis has no parenthesis. */
  lemma {:induction false} BaseAfterDot(front: string, end: string)
    requires '.' in end && '(' !in end
    ensures '(' !in BaseName(front + end)
    decreases |end|
  {
    var n := |end| - 1;
    assert (front + end)[..|front + end| - 1] == front + end[..n];
    if end[n] != '.' {
      assert end == end[..n] + [end[n]];
      BaseAfterDot(front, end[..n]);
    }
  }

  /** A generated name is found only under itself, among plain names and other generated names. */
  lemma GeneratedIsClear(f: string, arg: Expr, other: string)
    requires IsAggregateName(f) && PlainArg(arg)
    requires '(' !in other || exists g: string, b: Expr :: IsAggregateName(g) && PlainArg(b) && other == CallName(g, b)
    ensures NameMatches(other, CallName(f, arg)) ==> other == CallName(f, arg)
  {
    hide IsAggregateName;
    var name := CallName(f, arg);
    assert name[|f|] == '(';
    if '.' !in name {
      if '(' !in other {
        BaseNameIn(other);
      } else {
        var g: string, b: Expr :| IsAggregateName(g) && PlainArg(b) && other == CallName(g, b);
        if '.' in other {
          KnownHasNoDot(g);
          assert other == (g + "(") + (ExprName(b) + ")");
          assert '.' in ExprName(b) + ")";
          BaseAfterDot(g + "(", ExprName(b) + ")");
        } else {
          BaseOfPlainName(other);
        }
      }
    }
  }

  lemma KnownHasNoDot(g: string)
    requires IsAggregateName(g)
    ensures '.' !in g && '(' !in g
  {
  }

  lemma PlainNamesClear(items: Items, groupBy: seq<Expr>)
    requires PlainQuery(items, groupBy)
    ensures NamesClear(groupBy, ExtractedItems(items, []).1)
  {
    hide CallName, IsAggregateName, CallsInItems, ExtractedItems, NameMatches, PlainArg;
    var calls := ExtractedItems(items, []).1;
    var names := Names(groupBy, calls);
    ItemsAreComplete(items, [], CallsInItems(items));
    forall i | 0 <= i < |calls|
      ensures IsAggregateName(calls[i].func) && PlainArg(calls[i].arg) && names[|groupBy| + i] == CallName(calls[i].func, calls[i].arg)
    {
      assert (calls[i].func, calls[i].arg) in CallsInItems(items);
    }
    forall i, j | |groupBy| <= i < |names| && 0 <= j < i ensures !NameMatches(names[j], names[i]) {
      var call := calls[i - |groupBy|];
      if j < |groupBy| {
        assert names[j] == ExprName(groupBy[j]);
        PlainIsNotGenerated(groupBy[j].name, call.func, call.arg);
      } else {
        var other := calls[j - |groupBy|];
        assert names[j] == CallName(other.func, other.arg);
        assert other.name != call.name;
      }
      GeneratedIsClear(call.func, call.arg, names[j]);
    }
  }

  lemma PlainIsNotGenerated(name: string, f: string, arg: Expr)
    requires PlainName(name)
    ensures name != CallName(f, arg)
  {
    assert CallName(f, arg)[|f|] == '(';
  }

  /** A grouped query of plain columns means what its select items say, whatever its columns and aggregates
      are: every call of an aggregate over a column or the star reads its own result. */
  lemma PlainQueryMeansItems(child: LogicalPlan, groupBy: seq<Expr>, items: Items, catalog: CatalogMap, ctx: ExecutionContext)
    requires groupBy != [] || CallsInItems(items) != []
    requires PlainQuery(items, groupBy)
    requires PlanSchema(Agg(child, groupBy, ExtractedItems(items, []).1), catalog).Ok?
    requires PlanSchema(child, catalog).Ok?
    requires forall i | 0 <= i < |items| :: ColumnsGrouped(items[i].0, groupBy, PlanSchema(child, catalog).value)
    ensures var schema := PlanSchema(child, catalog).value;
            match Denote(Agg(child, groupBy, ExtractedItems(items, []).1), catalog, ctx)
            case Aborted(e) => Denote(BoundProjection(child, groupBy, items), catalog, ctx) == Aborted(e)
            case Started(_) =>
              && Denote(child, catalog, ctx).Started?
              && var rows := Denote(child, catalog, ctx).stream.rows;
                 var order := ctx.hashOrder(KeysOf(rows, groupBy, schema));
                 Denote(BoundProjection(child, groupBy, items), catalog, ctx) ==
                 Started(GroupedStream(QueryGroups(rows, groupBy, schema, order), items, schema))
  {
    hide *;
    PlainCallsNamedApart(items, groupBy);
    PlainNamesClear(items, groupBy);
    PlainIsNameable(items, groupBy, PlanSchema(child, catalog).value);
    GroupedPlanMeansItems(child, groupBy, items, catalog, ctx);
  }

  lemma PlainIsNameable(items: Items, groupBy: seq<Expr>, schema: Schema)
    requires NamedApart(CallsInItems(items)) && NamesClear(groupBy, ExtractedItems(items, []).1)
    requires forall i | 0 <= i < |items| :: ColumnsGrouped(items[i].0, groupBy, schema)
    ensures Nameable(items, groupBy, schema)
  {
  }
}
