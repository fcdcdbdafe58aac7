/** Laws of plan meanings: what LIMIT, filters, projections and joins deliver, seen from outside. */
module MeaningLaws {
  import opened Wrappers
  import opened Storage
  import opened Catalog
  import opened Planner
  import opened Meaning

  function Drop(rows: seq<Tuple>, n: nat): seq<Tuple> {
    if n <= |rows| then rows[n..] else []
  }

  function Take(rows: seq<Tuple>, n: Option<nat>): seq<Tuple> {
    if n.Some? && n.value <= |rows| then rows[..n.value] else rows
  }

  lemma {:induction false} TakeFromStart(s: Stream, take: Option<nat>)
    ensures LimitStream(s, 0, take) ==
            Stream(Take(s.rows, take), if take.Some? && take.value <= |s.rows| then Done else s.end)
    decreases |s.rows|
  {
    if s.rows != [] && take != Some(0) {
      var left := if take.Some? then Some(take.value - 1) else None;
      TakeFromStart(s.Tail(), left);
      assert Take(s.rows, take) == [s.rows[0]] + Take(s.rows[1..], left);
    }
  }

  /** LIMIT and OFFSET cut one slice; an error of the child shows only if the slice reaches it. */
  lemma {:induction false} LimitIsSlice(s: Stream, skip: nat, take: Option<nat>)
    ensures LimitStream(s, skip, take) ==
            Stream(Take(Drop(s.rows, skip), take),
                   if take.Some? && skip + take.value <= |s.rows| then Done else s.end)
    decreases |s.rows|
  {
    if skip == 0 {
      assert Drop(s.rows, 0) == s.rows;
      TakeFromStart(s, take);
    } else if s.rows != [] {
      LimitIsSlice(s.Tail(), skip - 1, take);
      assert Drop(s.rows, skip) == Drop(s.rows[1..], skip - 1);
    }
  }

  predicate Passes(row: Tuple, pred: Expr, schema: Schema) {
    var v := Eval(pred, row.values, schema);
    v.Ok? && v.value.IsTruthy()
  }

  function Keep(rows: seq<Tuple>, pred: Expr, schema: Schema): seq<Tuple> {
    if rows == [] then []
    else (if Passes(rows[0], pred, schema) then [rows[0]] else []) + Keep(rows[1..], pred, schema)
  }

  /** A filter keeps, in order, the rows that pass, up to the first row whose predicate fails to evaluate. */
  lemma {:induction false} FilterKeepsPassingRows(s: Stream, n: nat, pred: Expr, schema: Schema)
    requires n <= |s.rows|
    requires forall i | 0 <= i < n :: Eval(pred, s.rows[i].values, schema).Ok?
    requires n < |s.rows| ==> Eval(pred, s.rows[n].values, schema).Err?
    ensures FilterStream(s, pred, schema) ==
            Stream(Keep(s.rows[..n], pred, schema),
                   if n < |s.rows| then Fail(Eval(pred, s.rows[n].values, schema).error) else s.end)
    decreases n
  {
    if n > 0 {
      FilterKeepsPassingRows(s.Tail(), n - 1, pred, schema);
      assert s.rows[..n][1..] == s.rows[1..][..n - 1];
    }
  }

  /** A projection maps each row, up to the first row with an item that fails to evaluate. */
  lemma {:induction false} ProjectMapsRows(s: Stream, n: nat, exprs: seq<Expr>, schema: Schema)
    requires n <= |s.rows|
    requires forall i | 0 <= i < n :: EvalAll(exprs, s.rows[i].values, schema).Ok?
    requires n < |s.rows| ==> EvalAll(exprs, s.rows[n].values, schema).Err?
    ensures var out := ProjectStream(s, exprs, schema);
            && |out.rows| == n
            && (forall i | 0 <= i < n :: out.rows[i] == Plain(EvalAll(exprs, s.rows[i].values, schema).value))
            && out.end == if n < |s.rows| then Fail(EvalAll(exprs, s.rows[n].values, schema).error) else s.end
    decreases n
  {
    hide EvalAll;
    if n > 0 {
      ProjectMapsRows(s.Tail(), n - 1, exprs, schema);
    }
  }

  // Joins.

  function Pairs(l: Tuple, right: seq<Tuple>): (rows: seq<Tuple>)
    ensures |rows| == |right| && forall j | 0 <= j < |right| :: rows[j] == Combine(l, right[j])
  {
    seq(|right|, j requires 0 <= j < |right| => Combine(l, right[j]))
  }

  /** All pairs, left row by left row. */
  function Product(left: seq<Tuple>, right: seq<Tuple>): seq<Tuple> {
    if left == [] then [] else Pairs(left[0], right) + Product(left[1..], right)
  }

  lemma {:induction false} ProductSize(left: seq<Tuple>, right: seq<Tuple>)
    ensures |Product(left, right)| == |left| * |right|
  {
    if left != [] {
      ProductSize(left[1..], right);
      assert |left| * |right| == |right| + (|left| - 1) * |right|;
    }
  }

  /** Each pair stands at its own place: left-major order. */
  lemma {:induction false} ProductAt(left: seq<Tuple>, right: seq<Tuple>, i: nat, j: nat)
    requires i < |left| && j < |right|
    ensures 0 <= i * |right| + j < |Product(left, right)|
    ensures Product(left, right)[i * |right| + j] == Combine(left[i], right[j])
  {
    ProductSize(left[1..], right);
    if i > 0 {
      ProductAt(left[1..], right, i - 1, j);
      assert i * |right| + j == |right| + ((i - 1) * |right| + j);
    }
  }

  function MaybeFilter(s: Stream, cond: Option<Expr>, schema: Schema): Stream {
    match cond
    case None => s
    case Some(c) => FilterStream(s, c, schema)
  }

  lemma {:induction false} JoinFromIsFilteredProduct(l: Tuple, rest: seq<Tuple>, left: Stream, right: seq<Tuple>, cond: Option<Expr>, schema: Schema)
    ensures JoinFrom(l, rest, left, right, cond, schema) ==
            MaybeFilter(Stream(Pairs(l, rest) + Product(left.rows, right), left.end), cond, schema)
    decreases |left.rows|, |rest|
  {
    if rest == [] {
      assert Pairs(l, rest) + Product(left.rows, right) == Product(left.rows, right);
      if left.rows != [] {
        JoinFromIsFilteredProduct(left.rows[0], right, left.Tail(), right, cond, schema);
      }
    } else {
      JoinFromIsFilteredProduct(l, rest[1..], left, right, cond, schema);
      var whole := Pairs(l, rest) + Product(left.rows, right);
      assert whole[1..] == Pairs(l, rest[1..]) + Product(left.rows, right);
      assert whole == [whole[0]] + whole[1..];
    }
  }

  /** The nested loop is a filter over the left-major product, errors included; without a condition
      it is the product itself. */
  lemma JoinIsFilteredProduct(left: Stream, right: seq<Tuple>, cond: Option<Expr>, schema: Schema)
    ensures JoinStream(left, right, cond, schema) ==
            MaybeFilter(Stream(Product(left.rows, right), left.end), cond, schema)
    ensures cond == None ==> |JoinStream(left, right, cond, schema).rows| == |left.rows| * |right|
  {
    if left.rows != [] {
      JoinFromIsFilteredProduct(left.rows[0], right, left.Tail(), right, cond, schema);
    }
    ProductSize(left.rows, right);
  }
}
