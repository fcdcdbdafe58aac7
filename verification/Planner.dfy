/** Expressions, their evaluation and typing, and logical plans with their schemas (src/planner.rs). */
module Planner {
  import opened Wrappers
  import opened Storage
  import opened Catalog

  datatype Expr =
    | ColRef(name: string)
    | Const(val: Value)
    | BinaryOp(op: string, left: Expr, right: Expr)
    | FuncCall(func: string, arg: Expr)
    | Star

  function Eval(expr: Expr, values: seq<Value>, schema: Schema): Result<Value> {
    match expr
    case Star => Err(StarNotEvaluable)
    case Const(val) => Ok(val)
    case ColRef(name) =>
      (match schema.FindColIdx(name)
       case Some(idx) => if idx < |values| then Ok(values[idx]) else Err(PanicIndexOutOfBounds)
       case None => Err(ColumnNotFound(name)))
    case BinaryOp(op, left, right) =>
      var l :- Eval(left, values, schema);
      var r :- Eval(right, values, schema);
      EvalBinaryOp(op, l, r)
    case FuncCall(func, _) => Err(AggregateNotEvaluable(func))
  }

  /** Evaluates a list left to right; the first failure wins. */
  function EvalAll(exprs: seq<Expr>, values: seq<Value>, schema: Schema): (r: Result<seq<Value>>)
    ensures r.Ok? ==> |r.value| == |exprs|
    ensures r.Ok? ==> forall i | 0 <= i < |exprs| :: Eval(exprs[i], values, schema) == Ok(r.value[i])
    ensures r.Err? ==> exists i | 0 <= i < |exprs| :: Eval(exprs[i], values, schema) == Err(r.error)
  {
    if exprs == [] then Ok([])
    else
      var v :- Eval(exprs[0], values, schema);
      var vs :- EvalAll(exprs[1..], values, schema);
      Ok([v] + vs)
  }

  predicate IsComparison(op: string) {
    op in ["=", "==", "!=", "<>", ">", ">=", "<", "<="]
  }

  predicate IsArithmetic(op: string) {
    op in ["+", "-", "*", "/"]
  }

  function EvalBinaryOp(op: string, left: Value, right: Value): Result<Value> {
    if IsComparison(op) then Ok(Bool(EvalComparison(op, left, right)))
    else if IsArithmetic(op) then EvalArithmetic(op, left, right)
    else if op == "and" then Ok(Bool(left.IsTruthy() && right.IsTruthy()))
    else if op == "or" then Ok(Bool(left.IsTruthy() || right.IsTruthy()))
    else Err(UnsupportedOperator(op))
  }

  predicate EvalComparison(op: string, left: Value, right: Value)
    requires IsComparison(op)
  {
    var ord := left.PartialCmp(right);
    if op == "=" || op == "==" then left.Equals(right)
    else if op == "!=" || op == "<>" then !left.Equals(right)
    else if op == ">" then ord == Some(Greater)
    else if op == ">=" then ord == Some(Greater) || ord == Some(Equal)
    else if op == "<" then ord == Some(Less)
    else ord == Some(Less) || ord == Some(Equal)
  }

  /** Integer division rounds toward zero. */
  function TruncatedDiv(a: int, b: int): int
    requires b != 0
  {
    if a >= 0 then a / b else -(-a / b)
  }

  lemma ProductGrows(q: nat, d: nat)
    requires d >= 1
    ensures q * d >= q && (d >= 2 ==> q * d >= 2 * q)
  {
  }

  lemma QuotientBounds(n: nat, d: nat)
    requires d >= 1
    ensures 0 <= n / d <= n && (d >= 2 && n > 0 ==> n / d < n)
  {
    ProductGrows(n / d, d);
  }

  lemma DivideByNegative(n: int, d: int)
    requires n >= 0 && d >= 1
    ensures n / -d == -(n / d)
  {
  }

  /** Only one quotient does not fit 64 bits. */
  lemma QuotientFits(a: int, b: int)
    requires InI64(a) && InI64(b) && b != 0
    ensures InI64(TruncatedDiv(a, b)) <==> !(a == -TWO63 && b == -1)
  {
    var n := if a >= 0 then a else -a;
    var d := if b > 0 then b else -b;
    QuotientBounds(n, d);
    DivideByNegative(n, d);
  }

  function EvalArithmetic(op: string, left: Value, right: Value): Result<Value>
    requires IsArithmetic(op)
  {
    match (left, right)
    case (Int(a), Int(b)) =>
      if op == "+" then Ok(Int(Wrap64(a + b)))
      else if op == "-" then Ok(Int(Wrap64(a - b)))
      else if op == "*" then Ok(Int(Wrap64(a * b)))
      else if b == 0 then Err(DivisionByZero)
      else if a == -TWO63 && b == -1 then Err(PanicDivisionOverflow)
      else
        QuotientFits(a, b);
        Ok(Int(TruncatedDiv(a, b)))
    case (Float(a), Float(b)) => Ok(Float(FloatOp(op, a, b)))
    case (Int(a), Float(b)) => Ok(Float(FloatOp(op, IEEE754.ofInt(a), b)))
    case (Float(a), Int(b)) => Ok(Float(FloatOp(op, a, IEEE754.ofInt(b))))
    case _ => Err(InvalidOperands(op))
  }

  function FloatOp(op: string, a: F64, b: F64): F64
    requires IsArithmetic(op)
  {
    if op == "+" then IEEE754.add(a, b)
    else if op == "-" then IEEE754.sub(a, b)
    else if op == "*" then IEEE754.mul(a, b)
    else IEEE754.div(a, b)
  }

  predicate IsAggregateName(name: string) {
    name in ["count", "sum", "avg", "min", "max"]
  }

  function ExprType(expr: Expr, schema: Schema): Result<DataType>
    decreases expr, 0
  {
    match expr
    case Const(val) =>
      (match val
       case Int(_) => Ok(IntType)
       case Float(_) => Ok(FloatType)
       case Varchar(_) => Ok(VarcharType)
       case Bool(_) => Ok(BoolType)
       case Null => Ok(VarcharType))
    case ColRef(name) =>
      (match schema.FindColIdx(name)
       case Some(idx) => Ok(schema.columns[idx].dataType)
       case None => Err(ColumnNotFound(name)))
    case BinaryOp(op, left, right) =>
      var lt :- ExprType(left, schema);
      var rt :- ExprType(right, schema);
      if IsComparison(op) || op == "and" || op == "or" then Ok(BoolType)
      else if IsArithmetic(op) then
        if lt == FloatType || rt == FloatType then Ok(FloatType)
        else if lt == IntType && rt == IntType then Ok(IntType)
        else Err(NotNumeric)
      else Err(UnsupportedOperator(op))
    case FuncCall(func, arg) => AggType(func, arg, schema)
    case Star => Err(StarHasNoType)
  }

  /** Result type of an aggregate; COUNT does not look at its argument. */
  function AggType(func: string, arg: Expr, schema: Schema): Result<DataType>
    decreases arg, 1
  {
    if func == "count" then Ok(IntType)
    else if func == "sum" || func == "avg" then
      var t :- ExprType(arg, schema);
      if t == IntType then Ok(if func == "avg" then FloatType else IntType)
      else if t == FloatType then Ok(FloatType)
      else Err(NotNumeric)
    else if func == "min" || func == "max" then ExprType(arg, schema)
    else Err(UnsupportedAggregate(func))
  }

  function ExprName(expr: Expr): string
    decreases expr, 0
  {
    match expr
    case Const(val) => val.Display()
    case ColRef(name) => name
    case BinaryOp(op, left, right) => "(" + ExprName(left) + " " + op + " " + ExprName(right) + ")"
    case FuncCall(func, arg) => CallName(func, arg)
    case Star => "*"
  }

  /** The column name generated for an aggregate call. */
  function CallName(func: string, arg: Expr): string
    decreases arg, 1
  {
    func + "(" + ExprName(arg) + ")"
  }

  datatype AggCall = AggCall(func: string, arg: Expr, name: string)

  datatype LogicalPlan =
    | DummyScan
    | Scan(tableName: string, alias: Option<string>)
    | Filter(child: LogicalPlan, pred: Expr)
    | Project(child: LogicalPlan, exprs: seq<(Expr, string)>)
    | Limit(child: LogicalPlan, limit: Option<nat>, offset: Option<nat>)
    | Sort(child: LogicalPlan, orderBy: seq<(Expr, bool)>)
    | Join(left: LogicalPlan, right: LogicalPlan, condition: Option<Expr>)
    | Agg(child: LogicalPlan, groupBy: seq<Expr>, aggFuncs: seq<AggCall>)

  function PlanSchema(plan: LogicalPlan, catalog: CatalogMap): Result<Schema> {
    match plan
    case DummyScan => Ok(Schema([]))
    case Scan(tableName, alias) =>
      (match GetSchema(catalog, tableName)
       case None => Err(TableNotInCatalog(tableName))
       case Some(s) =>
         var qualifier := if alias.Some? then alias.value else tableName;
         Ok(Schema(seq(|s.columns|, i requires 0 <= i < |s.columns| => Qualify(s.columns[i], qualifier)))))
    case Filter(child, _) => PlanSchema(child, catalog)
    case Limit(child, _, _) => PlanSchema(child, catalog)
    case Sort(child, _) => PlanSchema(child, catalog)
    case Project(child, exprs) =>
      var childSchema :- PlanSchema(child, catalog);
      var columns :- ProjectColumns(exprs, childSchema);
      Ok(Schema(columns))
    case Join(left, right, _) =>
      var leftSchema :- PlanSchema(left, catalog);
      var rightSchema :- PlanSchema(right, catalog);
      Ok(Schema(leftSchema.columns + rightSchema.columns))
    case Agg(child, groupBy, aggFuncs) =>
      var childSchema :- PlanSchema(child, catalog);
      var keys :- GroupColumns(groupBy, childSchema);
      var aggs :- AggColumns(aggFuncs, childSchema);
      Ok(Schema(keys + aggs))
  }

  function Qualify(col: Column, qualifier: string): Column {
    if '.' in col.name then col else col.(name := qualifier + "." + col.name)
  }

  function ProjectColumns(exprs: seq<(Expr, string)>, schema: Schema): (r: Result<seq<Column>>)
    ensures r.Ok? ==> |r.value| == |exprs|
    ensures r.Ok? ==> forall i | 0 <= i < |exprs| ::
                        r.value[i].name == exprs[i].1 && ExprType(exprs[i].0, schema) == Ok(r.value[i].dataType)
  {
    if exprs == [] then Ok([])
    else
      var t :- ExprType(exprs[0].0, schema);
      var rest :- ProjectColumns(exprs[1..], schema);
      Ok([Column(exprs[0].1, t)] + rest)
  }

  function GroupColumns(groupBy: seq<Expr>, schema: Schema): (r: Result<seq<Column>>)
    ensures r.Ok? ==> |r.value| == |groupBy|
    ensures r.Ok? ==> forall i | 0 <= i < |groupBy| ::
                        r.value[i].name == ExprName(groupBy[i]) && ExprType(groupBy[i], schema) == Ok(r.value[i].dataType)
  {
    if groupBy == [] then Ok([])
    else
      var t :- ExprType(groupBy[0], schema);
      var rest :- GroupColumns(groupBy[1..], schema);
      Ok([Column(ExprName(groupBy[0]), t)] + rest)
  }

  function AggColumns(calls: seq<AggCall>, schema: Schema): (r: Result<seq<Column>>)
    ensures r.Ok? ==> |r.value| == |calls|
    ensures r.Ok? ==> forall i | 0 <= i < |calls| ::
                        r.value[i].name == calls[i].name && AggType(calls[i].func, calls[i].arg, schema) == Ok(r.value[i].dataType)
  {
    if calls == [] then Ok([])
    else
      var t :- AggType(calls[0].func, calls[0].arg, schema);
      var rest :- AggColumns(calls[1..], schema);
      Ok([Column(calls[0].name, t)] + rest)
  }
}
