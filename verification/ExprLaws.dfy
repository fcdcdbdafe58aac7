/** Laws of the comparison and arithmetic operators of the engine. */
module ExprLaws {
  import opened Wrappers
  import opened Storage
  import opened Catalog
  import opened Planner
  import opened ValueOrder

  function Compares(op: string, l: Value, r: Value): bool
    requires IsComparison(op)
  {
    EvalBinaryOp(op, l, r) == Ok(Bool(true))
  }

  lemma CompareIsReversed(l: Value, r: Value)
    ensures match l.PartialCmp(r)
            case None => r.PartialCmp(l) == None
            case Some(ord) => r.PartialCmp(l) == Some(ord.Reverse())
  {
    if l.Varchar? && r.Varchar? {
      CompareStringsReverse(l.s, r.s);
    }
  }

  /** The comparison operators fit together for all values, NULL, NaN and mixed kinds included: turning
      the operands around swaps < and >, at most one of <, = and > holds, the weak forms are the strict
      ones or =, and != is the opposite of =. */
  lemma ComparisonsFitTogether(l: Value, r: Value)
    ensures Compares("<", l, r) <==> Compares(">", r, l)
    ensures Compares("=", l, r) <==> Compares("=", r, l)
    ensures !(Compares("<", l, r) && Compares(">", l, r))
    ensures !(Compares("=", l, r) && (Compares("<", l, r) || Compares(">", l, r)))
    ensures Compares("<=", l, r) <==> Compares("<", l, r) || Compares("=", l, r)
    ensures Compares(">=", l, r) <==> Compares(">", l, r) || Compares("=", l, r)
    ensures Compares("!=", l, r) <==> !Compares("=", l, r)
    ensures l.Null? != r.Null? ==> !Compares("=", l, r) && !Compares("<", l, r) && !Compares(">", l, r)
  {
    EqualsIsCmpEqual(l, r);
    EqualsIsCmpEqual(r, l);
    CompareIsReversed(l, r);
  }

  /** What the comparison operators decide, under all their spellings: < is Before, = is Alike, and the
      others follow. */
  lemma OperatorsCompare(l: Value, r: Value)
    ensures EvalBinaryOp("<", l, r) == Ok(Bool(Before(l, r)))
    ensures EvalBinaryOp(">", l, r) == Ok(Bool(Before(r, l)))
    ensures EvalBinaryOp("<=", l, r) == Ok(Bool(Before(l, r) || Alike(l, r)))
    ensures EvalBinaryOp(">=", l, r) == Ok(Bool(Before(r, l) || Alike(l, r)))
    ensures EvalBinaryOp("=", l, r) == EvalBinaryOp("==", l, r) == Ok(Bool(Alike(l, r)))
    ensures EvalBinaryOp("!=", l, r) == EvalBinaryOp("<>", l, r) == Ok(Bool(!Alike(l, r)))
  {
    PartialCmpIs(l, r);
  }

  /** On integers, strings and Booleans, and on floats by their place on the number line, the operators
      are the ordinary ones; a NaN is unequal to everything and neither smaller nor larger. */
  lemma OrdinaryComparisons(a: i64, b: i64, x: F64, y: F64, s: string, t: string, p: bool, q: bool)
    ensures EvalBinaryOp("<", Int(a), Int(b)) == Ok(Bool(a < b)) && EvalBinaryOp("<=", Int(a), Int(b)) == Ok(Bool(a <= b))
    ensures EvalBinaryOp(">", Int(a), Int(b)) == Ok(Bool(a > b)) && EvalBinaryOp(">=", Int(a), Int(b)) == Ok(Bool(a >= b))
    ensures EvalBinaryOp("=", Int(a), Int(b)) == Ok(Bool(a == b)) && EvalBinaryOp("!=", Int(a), Int(b)) == Ok(Bool(a != b))
    ensures EvalBinaryOp("<", Varchar(s), Varchar(t)) == Ok(Bool(StringBefore(s, t)))
    ensures EvalBinaryOp("=", Varchar(s), Varchar(t)) == Ok(Bool(s == t))
    ensures EvalBinaryOp("<", Bool(p), Bool(q)) == Ok(Bool(!p && q)) && EvalBinaryOp("=", Bool(p), Bool(q)) == Ok(Bool(p == q))
    ensures IEEE754.rank(x).Some? && IEEE754.rank(y).Some? ==>
              && EvalBinaryOp("<", Float(x), Float(y)) == Ok(Bool(IEEE754.rank(x).value < IEEE754.rank(y).value))
              && EvalBinaryOp(">", Float(x), Float(y)) == Ok(Bool(IEEE754.rank(x).value > IEEE754.rank(y).value))
              && EvalBinaryOp("=", Float(x), Float(y)) == Ok(Bool(IEEE754.rank(x) == IEEE754.rank(y)))
    ensures IEEE754.rank(x).None? || IEEE754.rank(y).None? ==>
              && EvalBinaryOp("<", Float(x), Float(y)) == EvalBinaryOp(">", Float(x), Float(y)) == Ok(Bool(false))
              && EvalBinaryOp("=", Float(x), Float(y)) == Ok(Bool(false)) && EvalBinaryOp("!=", Float(x), Float(y)) == Ok(Bool(true))
  {
    hide EvalBinaryOp, StringBefore;
    OperatorsCompare(Int(a), Int(b));
    OperatorsCompare(Varchar(s), Varchar(t));
    OperatorsCompare(Bool(p), Bool(q));
    OperatorsCompare(Float(x), Float(y));
  }

  /** Everything but NULL and false counts as true. */
  predicate True(v: Value) {
    v == Bool(true) || v.Int? || v.Float? || v.Varchar?
  }

  lemma TruthTables(l: Value, r: Value)
    ensures l.IsTruthy() <==> True(l)
    ensures EvalBinaryOp("and", l, r) == Ok(Bool(True(l) && True(r)))
    ensures EvalBinaryOp("or", l, r) == Ok(Bool(True(l) || True(r)))
  {
  }

  /** A number as a float. */
  function AsFloat(v: Value): F64
    requires v.Int? || v.Float?
  {
    if v.Int? then IEEE754.ofInt(v.i) else v.f
  }

  /** With a float on either side arithmetic is that of floats, division by zero included. */
  lemma FloatArithmeticIs(l: Value, r: Value)
    requires (l.Float? && (r.Int? || r.Float?)) || (l.Int? && r.Float?)
    ensures EvalBinaryOp("+", l, r) == Ok(Float(IEEE754.add(AsFloat(l), AsFloat(r))))
    ensures EvalBinaryOp("-", l, r) == Ok(Float(IEEE754.sub(AsFloat(l), AsFloat(r))))
    ensures EvalBinaryOp("*", l, r) == Ok(Float(IEEE754.mul(AsFloat(l), AsFloat(r))))
    ensures EvalBinaryOp("/", l, r) == Ok(Float(IEEE754.div(AsFloat(l), AsFloat(r))))
  {
  }

  /** On anything but two numbers arithmetic fails, and so does every unknown operator on anything. */
  lemma OtherOperandsFail(op: string, l: Value, r: Value)
    ensures op in ["+", "-", "*", "/"] && !((l.Int? || l.Float?) && (r.Int? || r.Float?)) ==>
              EvalBinaryOp(op, l, r) == Err(InvalidOperands(op))
    ensures op !in ["+", "-", "*", "/", "=", "==", "!=", "<>", "<", "<=", ">", ">=", "and", "or"] ==>
              EvalBinaryOp(op, l, r) == Err(UnsupportedOperator(op))
  {
  }

  /** Operands are evaluated left to right and the first one that fails decides. */
  lemma OperandsInOrder(op: string, left: Expr, right: Expr, values: seq<Value>, schema: Schema)
    ensures var l, r, both := Eval(left, values, schema), Eval(right, values, schema), Eval(BinaryOp(op, left, right), values, schema);
            && (l.Err? ==> both == l)
            && (l.Ok? && r.Err? ==> both == r)
            && (l.Ok? && r.Ok? ==> both == EvalBinaryOp(op, l.value, r.value))
  {
  }

  /** A list of expressions fails as its first failing member does. */
  lemma {:induction false} FirstFailureDecides(exprs: seq<Expr>, values: seq<Value>, schema: Schema, k: nat)
    requires k < |exprs| && Eval(exprs[k], values, schema).Err?
    requires forall i | 0 <= i < k :: Eval(exprs[i], values, schema).Ok?
    ensures EvalAll(exprs, values, schema) == Err(Eval(exprs[k], values, schema).error)
  {
    hide Eval;
    if k > 0 {
      FirstFailureDecides(exprs[1..], values, schema, k - 1);
    }
  }

  lemma WrapUndone(x: int, y: int)
    ensures Wrap64(Wrap64(x) + y) == Wrap64(x + y)
  {
    var k := (x + TWO63) / (2 * TWO63);
    assert Wrap64(x) == x - k * (2 * TWO63);
    var j := (Wrap64(x) + y + TWO63) / (2 * TWO63);
    assert x + y + TWO63 == (j + k) * (2 * TWO63) + (Wrap64(x) + y + TWO63) % (2 * TWO63);
  }

  lemma WrapOfFitting(x: int)
    ensures Wrap64(x) == x <==> InI64(x)
  {
  }

  lemma FitsItself(a: i64)
    ensures Wrap64(a) == a
  {
  }

  /** On integers sums, differences and products are exact if and only if they fit 64 bits, and a
      difference takes a sum back even when the sum has wrapped around. */
  lemma IntegerArithmetic(a: i64, b: i64)
    ensures EvalBinaryOp("+", Int(a), Int(b)) == Ok(Int(Wrap64(a + b))) && (Wrap64(a + b) == a + b <==> InI64(a + b))
    ensures EvalBinaryOp("-", Int(a), Int(b)) == Ok(Int(Wrap64(a - b))) && (Wrap64(a - b) == a - b <==> InI64(a - b))
    ensures EvalBinaryOp("*", Int(a), Int(b)) == Ok(Int(Wrap64(a * b))) && (Wrap64(a * b) == a * b <==> InI64(a * b))
    ensures EvalBinaryOp("-", EvalBinaryOp("+", Int(a), Int(b)).value, Int(b)) == Ok(Int(a))
  {
    hide Wrap64, InI64;
    WrapOfFitting(a + b);
    WrapOfFitting(a - b);
    WrapOfFitting(a * b);
    WrapUndone(a + b, -(b as int));
    assert a + b + -(b as int) == a;
    FitsItself(a);
  }

  lemma DivisionBounds(a: int, b: int)
    requires b != 0
    ensures RoundsTowardZero(a, b, TruncatedDiv(a, b))
  {
  }

  /** Division rounds toward zero, so that the remainder has the sign of the dividend; it fails exactly
      for a zero divisor, and panics exactly for the smallest integer over -1. */
  lemma IntegerDivision(a: i64, b: i64)
    ensures EvalBinaryOp("/", Int(a), Int(b)) == Err(DivisionByZero) <==> b == 0
    ensures EvalBinaryOp("/", Int(a), Int(b)) == Err(PanicDivisionOverflow) <==> a == -TWO63 && b == -1
    ensures b != 0 && !(a == -TWO63 && b == -1) ==>
              exists q: i64 :: EvalBinaryOp("/", Int(a), Int(b)) == Ok(Int(q)) && RoundsTowardZero(a, b, q)
  {
    if b != 0 && !(a == -TWO63 && b == -1) {
      QuotientFits(a, b);
      DivisionBounds(a, b);
      var q: i64 := TruncatedDiv(a, b);
      assert EvalBinaryOp("/", Int(a), Int(b)) == Ok(Int(q)) && RoundsTowardZero(a, b, q);
    }
  }

  predicate RoundsTowardZero(a: int, b: int, q: int) {
    var rest := a - q * b;
    && (if a >= 0 then 0 <= rest else rest <= 0)
    && (if b > 0 then -b < rest < b else b < rest < -b)
  }
}
