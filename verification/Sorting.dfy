/** ORDER BY: the row comparator and the stable sort it drives (src/executor.rs, SortExecutor). */
module Sorting {
  import opened Wrappers
  import opened Storage
  import opened Catalog
  import opened Planner

  /** A sort key; a key that cannot be evaluated counts as NULL. */
  function SortKey(row: Tuple, expr: Expr, schema: Schema): Value {
    match Eval(expr, row.values, schema)
    case Ok(v) => v
    case Err(_) => Null
  }

  /** Incomparable keys count as equal. */
  function CompareKeys(a: Value, b: Value): Ordering {
    match a.PartialCmp(b)
    case Some(ord) => ord
    case None => Equal
  }

  function CompareRows(a: Tuple, b: Tuple, orderBy: seq<(Expr, bool)>, schema: Schema): Ordering {
    if orderBy == [] then Equal
    else
      var (expr, asc) := orderBy[0];
      var ord := CompareKeys(SortKey(a, expr, schema), SortKey(b, expr, schema));
      if ord == Equal then CompareRows(a, b, orderBy[1..], schema)
      else if asc then ord else ord.Reverse()
  }

  /** Stable insertion: the row goes before the first one it is not greater than. */
  function Insert(row: Tuple, sorted: seq<Tuple>, orderBy: seq<(Expr, bool)>, schema: Schema): seq<Tuple> {
    if sorted == [] then [row]
    else if CompareRows(row, sorted[0], orderBy, schema) == Greater then
      [sorted[0]] + Insert(row, sorted[1..], orderBy, schema)
    else [row] + sorted
  }

  function StableSort(rows: seq<Tuple>, orderBy: seq<(Expr, bool)>, schema: Schema): seq<Tuple> {
    if rows == [] then []
    else Insert(rows[0], StableSort(rows[1..], orderBy, schema), orderBy, schema)
  }

  lemma {:induction false} InsertIsPermutation(row: Tuple, sorted: seq<Tuple>, orderBy: seq<(Expr, bool)>, schema: Schema)
    ensures multiset(Insert(row, sorted, orderBy, schema)) == multiset{row} + multiset(sorted)
  {
    if sorted != [] {
      InsertIsPermutation(row, sorted[1..], orderBy, schema);
      assert sorted == [sorted[0]] + sorted[1..];
    }
  }

  /** Sorting rearranges the rows, whatever the keys are. */
  lemma {:induction false} SortIsPermutation(rows: seq<Tuple>, orderBy: seq<(Expr, bool)>, schema: Schema)
    ensures multiset(StableSort(rows, orderBy, schema)) == multiset(rows)
  {
    if rows != [] {
      SortIsPermutation(rows[1..], orderBy, schema);
      InsertIsPermutation(rows[0], StableSort(rows[1..], orderBy, schema), orderBy, schema);
      assert rows == [rows[0]] + rows[1..];
    }
  }

  // One comparable kind per key column makes the comparator a total preorder.

  predicate SameKind(a: Value, b: Value) {
    match (a, b)
    case (Null, Null) => true
    case (Int(_), Int(_)) => true
    case (Float(x), Float(y)) => IEEE754.rank(x).Some? && IEEE754.rank(y).Some?
    case (Varchar(_), Varchar(_)) => true
    case (Bool(_), Bool(_)) => true
    case _ => false
  }

  predicate Comparable(a: Tuple, b: Tuple, orderBy: seq<(Expr, bool)>, schema: Schema) {
    forall i | 0 <= i < |orderBy| :: SameKind(SortKey(a, orderBy[i].0, schema), SortKey(b, orderBy[i].0, schema))
  }

  predicate AllComparable(rows: seq<Tuple>, orderBy: seq<(Expr, bool)>, schema: Schema) {
    forall i, j | 0 <= i < |rows| && 0 <= j < |rows| :: Comparable(rows[i], rows[j], orderBy, schema)
  }

  lemma KeysReverse(a: Value, b: Value)
    requires SameKind(a, b)
    ensures CompareKeys(b, a) == CompareKeys(a, b).Reverse()
  {
    if a.Varchar? {
      CompareStringsReverse(a.s, b.s);
    }
  }

  lemma KeysTransitive(a: Value, b: Value, c: Value)
    requires SameKind(a, b) && SameKind(b, c)
    requires CompareKeys(a, b) != Greater && CompareKeys(b, c) != Greater
    ensures CompareKeys(a, c) != Greater
  {
    if a.Varchar? {
      CompareStringsTransitive(a.s, b.s, c.s);
    }
  }

  lemma {:induction false} RowsReverse(a: Tuple, b: Tuple, orderBy: seq<(Expr, bool)>, schema: Schema)
    requires Comparable(a, b, orderBy, schema)
    ensures CompareRows(b, a, orderBy, schema) == CompareRows(a, b, orderBy, schema).Reverse()
  {
    if orderBy != [] {
      KeysReverse(SortKey(a, orderBy[0].0, schema), SortKey(b, orderBy[0].0, schema));
      RowsReverse(a, b, orderBy[1..], schema);
    }
  }

  lemma {:induction false} RowsTransitive(a: Tuple, b: Tuple, c: Tuple, orderBy: seq<(Expr, bool)>, schema: Schema)
    requires Comparable(a, b, orderBy, schema) && Comparable(b, c, orderBy, schema)
    requires CompareRows(a, b, orderBy, schema) != Greater && CompareRows(b, c, orderBy, schema) != Greater
    ensures CompareRows(a, c, orderBy, schema) != Greater
  {
    if orderBy != [] {
      var x, y, z := SortKey(a, orderBy[0].0, schema), SortKey(b, orderBy[0].0, schema), SortKey(c, orderBy[0].0, schema);
      KeysReverse(x, y);
      KeysReverse(y, z);
      KeysReverse(x, z);
      if orderBy[0].1 {
        KeysTransitive(x, y, z);
        if CompareKeys(x, z) == Equal {
          KeysTransitive(z, x, y);
          KeysTransitive(y, z, x);
          RowsTransitive(a, b, c, orderBy[1..], schema);
        }
      } else {
        KeysTransitive(z, y, x);
        if CompareKeys(x, z) == Equal {
          KeysTransitive(x, z, y);
          KeysTransitive(y, x, z);
          RowsTransitive(a, b, c, orderBy[1..], schema);
        }
      }
    }
  }

  /** Lexicographic order by the sort keys: at the first key that differs the row comes first, in the
      direction of that key. */
  ghost predicate Precedes(a: Tuple, b: Tuple, orderBy: seq<(Expr, bool)>, schema: Schema) {
    exists k :: 0 <= k < |orderBy|
                && (forall i | 0 <= i < k ::
                      CompareKeys(SortKey(a, orderBy[i].0, schema), SortKey(b, orderBy[i].0, schema)) == Equal)
                && CompareKeys(SortKey(a, orderBy[k].0, schema), SortKey(b, orderBy[k].0, schema)) ==
                   (if orderBy[k].1 then Less else Greater)
  }

  lemma {:induction false} CompareRowsIsLexicographic(a: Tuple, b: Tuple, orderBy: seq<(Expr, bool)>, schema: Schema)
    ensures CompareRows(a, b, orderBy, schema) == Less <==> Precedes(a, b, orderBy, schema)
  {
    hide SortKey, CompareKeys;
    if orderBy != [] {
      var tail := orderBy[1..];
      CompareRowsIsLexicographic(a, b, tail, schema);
      if CompareKeys(SortKey(a, orderBy[0].0, schema), SortKey(b, orderBy[0].0, schema)) == Equal {
        if Precedes(a, b, tail, schema) {
          var k :| 0 <= k < |tail|
                   && (forall i | 0 <= i < k ::
                         CompareKeys(SortKey(a, tail[i].0, schema), SortKey(b, tail[i].0, schema)) == Equal)
                   && CompareKeys(SortKey(a, tail[k].0, schema), SortKey(b, tail[k].0, schema)) ==
                      (if tail[k].1 then Less else Greater);
          assert orderBy[k + 1] == tail[k];
          assert forall i | 0 < i < k + 1 :: orderBy[i] == tail[i - 1];
        }
        if Precedes(a, b, orderBy, schema) {
          var k :| 0 <= k < |orderBy|
                   && (forall i | 0 <= i < k ::
                         CompareKeys(SortKey(a, orderBy[i].0, schema), SortKey(b, orderBy[i].0, schema)) == Equal)
                   && CompareKeys(SortKey(a, orderBy[k].0, schema), SortKey(b, orderBy[k].0, schema)) ==
                      (if orderBy[k].1 then Less else Greater);
          assert k > 0;
          assert tail[k - 1] == orderBy[k];
          assert forall i | 0 <= i < k - 1 :: tail[i] == orderBy[i + 1];
        }
      }
    }
  }

  // Sortedness, stability, and that together they pin the result down.

  predicate Sorted(rows: seq<Tuple>, orderBy: seq<(Expr, bool)>, schema: Schema) {
    forall i, j | 0 <= i < j < |rows| :: CompareRows(rows[i], rows[j], orderBy, schema) != Greater
  }

  /** The rows that tie with x, in order. */
  function Ties(rows: seq<Tuple>, x: Tuple, orderBy: seq<(Expr, bool)>, schema: Schema): seq<Tuple> {
    if rows == [] then []
    else (if CompareRows(rows[0], x, orderBy, schema) == Equal then [rows[0]] else []) +
         Ties(rows[1..], x, orderBy, schema)
  }

  /** A sorted permutation in which tied rows keep their order. */
  ghost predicate IsStableSort(out: seq<Tuple>, rows: seq<Tuple>, orderBy: seq<(Expr, bool)>, schema: Schema) {
    && multiset(out) == multiset(rows)
    && Sorted(out, orderBy, schema)
    && forall x | x in rows :: Ties(out, x, orderBy, schema) == Ties(rows, x, orderBy, schema)
  }

  lemma ComparableInBag(rows: seq<Tuple>, bag: seq<Tuple>, orderBy: seq<(Expr, bool)>, schema: Schema)
    requires AllComparable(bag, orderBy, schema)
    requires forall r | r in rows :: r in bag
    ensures AllComparable(rows, orderBy, schema)
  {
    forall i, j | 0 <= i < |rows| && 0 <= j < |rows|
      ensures Comparable(rows[i], rows[j], orderBy, schema)
    {
      assert rows[i] in bag && rows[j] in bag;
    }
  }

  lemma SameBag(a: seq<Tuple>, b: seq<Tuple>)
    requires multiset(a) == multiset(b)
    ensures forall r :: r in a <==> r in b
  {
    forall r ensures r in a <==> r in b {
      assert r in a <==> r in multiset(a);
      assert r in b <==> r in multiset(b);
    }
  }

  lemma ComparablePair(bag: seq<Tuple>, a: Tuple, b: Tuple, orderBy: seq<(Expr, bool)>, schema: Schema)
    requires AllComparable(bag, orderBy, schema) && a in bag && b in bag
    ensures Comparable(a, b, orderBy, schema)
  {
  }

  lemma SortedCons(x: Tuple, rows: seq<Tuple>, orderBy: seq<(Expr, bool)>, schema: Schema)
    requires Sorted(rows, orderBy, schema)
    requires forall y | y in rows :: CompareRows(x, y, orderBy, schema) != Greater
    ensures Sorted([x] + rows, orderBy, schema)
  {
  }

  lemma {:induction false} InsertKeepsSorted(row: Tuple, sorted: seq<Tuple>, orderBy: seq<(Expr, bool)>, schema: Schema)
    requires AllComparable([row] + sorted, orderBy, schema)
    requires Sorted(sorted, orderBy, schema)
    ensures Sorted(Insert(row, sorted, orderBy, schema), orderBy, schema)
  {
    hide CompareRows, Comparable;
    if sorted != [] {
      var all := [row] + sorted;
      var first := sorted[0];
      assert row in all && first in all;
      if CompareRows(row, first, orderBy, schema) == Greater {
        var tail := sorted[1..];
        ComparableInBag([row] + tail, all, orderBy, schema);
        InsertKeepsSorted(row, tail, orderBy, schema);
        ComparablePair(all, row, first, orderBy, schema);
        RowsReverse(row, first, orderBy, schema);
        hide AllComparable;
        InsertIsPermutation(row, tail, orderBy, schema);
        var rest := Insert(row, tail, orderBy, schema);
        SameBag(rest, [row] + tail);
        forall y | y in rest ensures CompareRows(first, y, orderBy, schema) != Greater {
          assert y in [row] + tail;
        }
        SortedCons(first, rest, orderBy, schema);
      } else {
        hide AllComparable;
        forall y | y in sorted ensures CompareRows(row, y, orderBy, schema) != Greater {
          if y != first {
            assert y in all;
            ComparablePair(all, row, first, orderBy, schema);
            ComparablePair(all, first, y, orderBy, schema);
            RowsTransitive(row, first, y, orderBy, schema);
          }
        }
        SortedCons(row, sorted, orderBy, schema);
      }
    }
  }

  lemma {:induction false} InsertKeepsTies(row: Tuple, sorted: seq<Tuple>, x: Tuple, orderBy: seq<(Expr, bool)>, schema: Schema)
    requires AllComparable([x, row] + sorted, orderBy, schema)
    ensures Ties(Insert(row, sorted, orderBy, schema), x, orderBy, schema) == Ties([row] + sorted, x, orderBy, schema)
  {
    hide CompareRows, Comparable;
    if sorted != [] && CompareRows(row, sorted[0], orderBy, schema) == Greater {
      var all := [x, row] + sorted;
      var first, tail := sorted[0], sorted[1..];
      ComparableInBag([x, row] + tail, all, orderBy, schema);
      InsertKeepsTies(row, tail, x, orderBy, schema);
      hide AllComparable;
      var rest := Insert(row, tail, orderBy, schema);
      assert ([first] + rest)[1..] == rest;
      assert ([row] + tail)[1..] == tail;
      assert ([row] + sorted)[1..] == sorted;
      // Only one of row and first can tie with x.
      if CompareRows(row, x, orderBy, schema) == Equal && CompareRows(first, x, orderBy, schema) == Equal {
        assert x in all && row in all && first in all;
        ComparablePair(all, row, x, orderBy, schema);
        ComparablePair(all, first, x, orderBy, schema);
        ComparablePair(all, x, first, orderBy, schema);
        RowsReverse(first, x, orderBy, schema);
        RowsTransitive(row, x, first, orderBy, schema);
      }
    }
  }

  /** ORDER BY yields a stable sorted permutation when each key column holds one comparable kind. */
  lemma {:induction false} SortIsStable(rows: seq<Tuple>, orderBy: seq<(Expr, bool)>, schema: Schema)
    requires AllComparable(rows, orderBy, schema)
    ensures IsStableSort(StableSort(rows, orderBy, schema), rows, orderBy, schema)
  {
    SortIsPermutation(rows, orderBy, schema);
    if rows != [] {
      var tail := StableSort(rows[1..], orderBy, schema);
      assert rows == [rows[0]] + rows[1..];
      ComparableInBag(rows[1..], rows, orderBy, schema);
      SortIsStable(rows[1..], orderBy, schema);
      SameBag(tail, rows[1..]);
      ComparableInBag([rows[0]] + tail, rows, orderBy, schema);
      InsertKeepsSorted(rows[0], tail, orderBy, schema);
      forall x | x in rows
        ensures Ties(StableSort(rows, orderBy, schema), x, orderBy, schema) == Ties(rows, x, orderBy, schema)
      {
        ComparableInBag([x, rows[0]] + tail, rows, orderBy, schema);
        InsertKeepsTies(rows[0], tail, x, orderBy, schema);
        assert ([rows[0]] + tail)[1..] == tail;
        TiesFromTail(rows, tail, x, orderBy, schema);
      }
    }
  }

  lemma TiesFromTail(rows: seq<Tuple>, tail: seq<Tuple>, x: Tuple, orderBy: seq<(Expr, bool)>, schema: Schema)
    requires rows != [] && x in rows && AllComparable(rows, orderBy, schema)
    requires multiset(tail) == multiset(rows[1..])
    requires forall y | y in rows[1..] :: Ties(tail, y, orderBy, schema) == Ties(rows[1..], y, orderBy, schema)
    ensures Ties(tail, x, orderBy, schema) == Ties(rows[1..], x, orderBy, schema)
  {
    SameBag(tail, rows[1..]);
    if x !in rows[1..] {
      if y :| y in rows[1..] && CompareRows(y, x, orderBy, schema) == Equal {
        TiesOfEquals(tail, x, y, rows, orderBy, schema);
        TiesOfEquals(rows[1..], x, y, rows, orderBy, schema);
      } else {
        NoTies(tail, x, orderBy, schema);
        NoTies(rows[1..], x, orderBy, schema);
      }
    }
  }

  lemma {:induction false} NoTies(rows: seq<Tuple>, x: Tuple, orderBy: seq<(Expr, bool)>, schema: Schema)
    requires forall y | y in rows :: CompareRows(y, x, orderBy, schema) != Equal
    ensures Ties(rows, x, orderBy, schema) == []
  {
    if rows != [] {
      NoTies(rows[1..], x, orderBy, schema);
    }
  }

  /** Rows that tie with each other have the same ties. */
  lemma {:induction false} TiesOfEquals(rows: seq<Tuple>, x: Tuple, y: Tuple, bag: seq<Tuple>, orderBy: seq<(Expr, bool)>, schema: Schema)
    requires AllComparable(bag, orderBy, schema) && x in bag && y in bag
    requires forall r | r in rows :: r in bag
    requires CompareRows(y, x, orderBy, schema) == Equal
    ensures Ties(rows, x, orderBy, schema) == Ties(rows, y, orderBy, schema)
  {
    if rows != [] {
      TiesOfEquals(rows[1..], x, y, bag, orderBy, schema);
      EqualCarriesOver(rows[0], x, y, bag, orderBy, schema);
      EqualCarriesOver(rows[0], y, x, bag, orderBy, schema);
    }
  }

  lemma EqualCarriesOver(r: Tuple, x: Tuple, y: Tuple, bag: seq<Tuple>, orderBy: seq<(Expr, bool)>, schema: Schema)
    requires AllComparable(bag, orderBy, schema) && r in bag && x in bag && y in bag
    requires CompareRows(y, x, orderBy, schema) == Equal
    ensures CompareRows(x, y, orderBy, schema) == Equal
    ensures CompareRows(r, x, orderBy, schema) == Equal ==> CompareRows(r, y, orderBy, schema) == Equal
  {
    assert Comparable(y, x, orderBy, schema) && Comparable(r, x, orderBy, schema) && Comparable(r, y, orderBy, schema)
        && Comparable(x, y, orderBy, schema) && Comparable(x, r, orderBy, schema);
    RowsReverse(y, x, orderBy, schema);
    if CompareRows(r, x, orderBy, schema) == Equal {
      RowsReverse(r, x, orderBy, schema);
      RowsReverse(r, y, orderBy, schema);
      RowsTransitive(r, x, y, orderBy, schema);
      RowsTransitive(y, x, r, orderBy, schema);
    }
  }

  lemma TailTies(a: seq<Tuple>, b: seq<Tuple>, x: Tuple, orderBy: seq<(Expr, bool)>, schema: Schema)
    requires a != [] && b != [] && a[0] == b[0]
    requires Ties(a, x, orderBy, schema) == Ties(b, x, orderBy, schema)
    ensures Ties(a[1..], x, orderBy, schema) == Ties(b[1..], x, orderBy, schema)
  {
    hide CompareRows;
    var n := if CompareRows(a[0], x, orderBy, schema) == Equal then 1 else 0;
    assert Ties(a, x, orderBy, schema)[n..] == Ties(a[1..], x, orderBy, schema);
    assert Ties(b, x, orderBy, schema)[n..] == Ties(b[1..], x, orderBy, schema);
  }

  lemma SortedTail(rows: seq<Tuple>, orderBy: seq<(Expr, bool)>, schema: Schema)
    requires rows != [] && Sorted(rows, orderBy, schema)
    ensures Sorted(rows[1..], orderBy, schema)
  {
  }

  lemma TailBags(a: seq<Tuple>, b: seq<Tuple>)
    requires a != [] && b != [] && a[0] == b[0] && multiset(a) == multiset(b)
    ensures multiset(a[1..]) == multiset(b[1..])
  {
    assert a == [a[0]] + a[1..] && b == [b[0]] + b[1..];
    assert multiset(a[1..]) == multiset(a) - multiset{a[0]};
    assert multiset(b[1..]) == multiset(b) - multiset{b[0]};
  }

  /** There is only one stable sort, so any stable sorting algorithm returns what StableSort does. */
  lemma {:induction false} StableSortIsUnique(a: seq<Tuple>, b: seq<Tuple>, bag: seq<Tuple>, orderBy: seq<(Expr, bool)>, schema: Schema)
    requires AllComparable(bag, orderBy, schema)
    requires multiset(a) == multiset(b)
    requires forall r | r in a :: r in bag
    requires Sorted(a, orderBy, schema) && Sorted(b, orderBy, schema)
    requires forall x | x in bag :: Ties(a, x, orderBy, schema) == Ties(b, x, orderBy, schema)
    ensures a == b
  {
    hide CompareRows, Comparable, AllComparable, Sorted;
    assert |a| == |multiset(a)| == |multiset(b)| == |b|;
    if a != [] {
      HeadsTie(a, b, bag, orderBy, schema);
      assert a[0] in bag;
      assert Ties(a, a[0], orderBy, schema)[0] == a[0] && Ties(b, a[0], orderBy, schema)[0] == b[0];
      hide Ties;
      forall x | x in bag ensures Ties(a[1..], x, orderBy, schema) == Ties(b[1..], x, orderBy, schema) {
        TailTies(a, b, x, orderBy, schema);
      }
      SortedTail(a, orderBy, schema);
      SortedTail(b, orderBy, schema);
      TailBags(a, b);
      StableSortIsUnique(a[1..], b[1..], bag, orderBy, schema);
      assert a == [a[0]] + a[1..] && b == [b[0]] + b[1..];
    }
  }

  lemma HeadsTie(a: seq<Tuple>, b: seq<Tuple>, bag: seq<Tuple>, orderBy: seq<(Expr, bool)>, schema: Schema)
    requires AllComparable(bag, orderBy, schema)
    requires a != [] && b != [] && multiset(a) == multiset(b)
    requires forall r | r in a :: r in bag
    requires Sorted(a, orderBy, schema) && Sorted(b, orderBy, schema)
    ensures CompareRows(a[0], a[0], orderBy, schema) == Equal && CompareRows(b[0], a[0], orderBy, schema) == Equal
  {
    SameBag(a, b);
    assert b[0] in a && a[0] in b && a[0] in a;
    var i :| 0 <= i < |a| && a[i] == b[0];
    var j :| 0 <= j < |b| && b[j] == a[0];
    assert Comparable(a[0], a[0], orderBy, schema) && Comparable(a[0], b[0], orderBy, schema)
        && Comparable(b[0], a[0], orderBy, schema) && Comparable(b[0], b[0], orderBy, schema);
    RowsReverse(a[0], a[0], orderBy, schema);
    RowsReverse(a[0], b[0], orderBy, schema);
  }

  lemma AnyStableSortIsThisOne(out: seq<Tuple>, rows: seq<Tuple>, orderBy: seq<(Expr, bool)>, schema: Schema)
    requires AllComparable(rows, orderBy, schema)
    requires IsStableSort(out, rows, orderBy, schema)
    ensures out == StableSort(rows, orderBy, schema)
  {
    SortIsStable(rows, orderBy, schema);
    SameBag(out, rows);
    StableSortIsUnique(out, StableSort(rows, orderBy, schema), rows, orderBy, schema);
  }

  // Panics inside a comparison.

  function KeyPanic(row: Tuple, expr: Expr, schema: Schema): Option<Error> {
    match Eval(expr, row.values, schema)
    case Ok(_) => None
    case Err(e) => if e.IsPanic() then Some(e) else None
  }

  /** The panic of comparing two rows, if any: keys are evaluated one by one as long as they tie. */
  function ComparePanic(a: Tuple, b: Tuple, orderBy: seq<(Expr, bool)>, schema: Schema): Option<Error> {
    if orderBy == [] then None
    else
      var expr := orderBy[0].0;
      if KeyPanic(a, expr, schema).Some? then KeyPanic(a, expr, schema)
      else if KeyPanic(b, expr, schema).Some? then KeyPanic(b, expr, schema)
      else if CompareKeys(SortKey(a, expr, schema), SortKey(b, expr, schema)) == Equal then
        ComparePanic(a, b, orderBy[1..], schema)
      else None
  }

  lemma {:induction false} ComparePanicIsFromKey(a: Tuple, b: Tuple, orderBy: seq<(Expr, bool)>, schema: Schema)
    requires ComparePanic(a, b, orderBy, schema).Some?
    ensures exists k :: 0 <= k < |orderBy|
                        && (KeyPanic(a, orderBy[k].0, schema) == ComparePanic(a, b, orderBy, schema)
                            || KeyPanic(b, orderBy[k].0, schema) == ComparePanic(a, b, orderBy, schema))
  {
    hide KeyPanic, SortKey, CompareKeys;
    var key := orderBy[0].0;
    if KeyPanic(a, key, schema).None? && KeyPanic(b, key, schema).None? {
      var tail := orderBy[1..];
      ComparePanicIsFromKey(a, b, tail, schema);
      var k :| 0 <= k < |tail|
               && (KeyPanic(a, tail[k].0, schema) == ComparePanic(a, b, tail, schema)
                   || KeyPanic(b, tail[k].0, schema) == ComparePanic(a, b, tail, schema));
      assert orderBy[k + 1] == tail[k];
    }
  }

  /** Some comparison of two of the rows panics this way. */
  ghost predicate MayPanic(rows: seq<Tuple>, e: Error, orderBy: seq<(Expr, bool)>, schema: Schema) {
    exists i, j :: 0 <= i < |rows| && 0 <= j < |rows| && i != j && ComparePanic(rows[i], rows[j], orderBy, schema) == Some(e)
  }

  /** A row whose first key panics cannot be compared with any other, and a sort compares each row. */
  ghost predicate MustPanic(rows: seq<Tuple>, orderBy: seq<(Expr, bool)>, schema: Schema) {
    |rows| >= 2 && orderBy != [] && exists i :: 0 <= i < |rows| && KeyPanic(rows[i], orderBy[0].0, schema).Some?
  }

  // The sort of the standard library.

  /** What the engine's library promises of its stable sort. It returns a permutation; a stable sort, when
      the comparator orders the rows. It panics only in a comparison of two rows, or on finding that the
      comparator is no total order, which newer libraries look for. */
  ghost predicate SortPromise(r: Result<seq<Tuple>>, rows: seq<Tuple>, orderBy: seq<(Expr, bool)>, schema: Schema) {
    match r
    case Ok(out) =>
      && multiset(out) == multiset(rows)
      && !MustPanic(rows, orderBy, schema)
      && (AllComparable(rows, orderBy, schema) ==> IsStableSort(out, rows, orderBy, schema))
    case Err(e) =>
      MayPanic(rows, e, orderBy, schema) || (e == PanicSortOrder && !AllComparable(rows, orderBy, schema))
  }

  type SortFunction = (seq<Tuple>, seq<(Expr, bool)>, Schema) -> Result<seq<Tuple>>

  ghost predicate IsSortBy(f: SortFunction) {
    forall rows, orderBy, schema :: SortPromise(f(rows, orderBy, schema), rows, orderBy, schema)
  }

  /** A sort that keeps the promise: it looks at all pairs first. */
  function CarefulSort(rows: seq<Tuple>, orderBy: seq<(Expr, bool)>, schema: Schema): Result<seq<Tuple>> {
    match FirstPanic(rows, orderBy, schema)
    case Some(e) => Err(e)
    case None => Ok(StableSort(rows, orderBy, schema))
  }

  function PanicAgainst(a: Tuple, rows: seq<Tuple>, orderBy: seq<(Expr, bool)>, schema: Schema): (e: Option<Error>)
    ensures e.Some? ==> exists j :: 0 <= j < |rows| &&
                                    (ComparePanic(a, rows[j], orderBy, schema) == e || ComparePanic(rows[j], a, orderBy, schema) == e)
    ensures e.None? ==> forall j | 0 <= j < |rows| ::
                          ComparePanic(a, rows[j], orderBy, schema).None? && ComparePanic(rows[j], a, orderBy, schema).None?
  {
    if rows == [] then None
    else
      var one, two := ComparePanic(a, rows[0], orderBy, schema), ComparePanic(rows[0], a, orderBy, schema);
      if one.Some? then one
      else if two.Some? then two
      else PanicAgainst(a, rows[1..], orderBy, schema)
  }

  function FirstPanic(rows: seq<Tuple>, orderBy: seq<(Expr, bool)>, schema: Schema): (e: Option<Error>)
    ensures e.Some? ==> MayPanic(rows, e.value, orderBy, schema)
    ensures e.None? ==> forall i, j | 0 <= i < |rows| && 0 <= j < |rows| && i != j ::
                          ComparePanic(rows[i], rows[j], orderBy, schema).None?
  {
    if rows == [] then None
    else
      var one := PanicAgainst(rows[0], rows[1..], orderBy, schema);
      if one.Some? then one else FirstPanic(rows[1..], orderBy, schema)
  }

  lemma MustMeansMay(rows: seq<Tuple>, orderBy: seq<(Expr, bool)>, schema: Schema)
    requires MustPanic(rows, orderBy, schema)
    ensures exists i, j :: 0 <= i < |rows| && 0 <= j < |rows| && i != j && ComparePanic(rows[i], rows[j], orderBy, schema).Some?
  {
    hide KeyPanic;
    var i :| 0 <= i < |rows| && KeyPanic(rows[i], orderBy[0].0, schema).Some?;
    var j := if i == 0 then 1 else 0;
    assert ComparePanic(rows[i], rows[j], orderBy, schema).Some?;
  }

  lemma CarefulSortKeepsPromise(rows: seq<Tuple>, orderBy: seq<(Expr, bool)>, schema: Schema)
    ensures SortPromise(CarefulSort(rows, orderBy, schema), rows, orderBy, schema)
  {
    hide AllComparable, IsStableSort, StableSort, KeyPanic;
    if FirstPanic(rows, orderBy, schema).None? {
      SortIsPermutation(rows, orderBy, schema);
      if AllComparable(rows, orderBy, schema) {
        SortIsStable(rows, orderBy, schema);
      }
      if MustPanic(rows, orderBy, schema) {
        MustMeansMay(rows, orderBy, schema);
        assert false;
      }
    }
  }

  lemma CarefulSortIsSortBy()
    ensures IsSortBy(CarefulSort)
  {
    hide SortPromise;
    forall rows, orderBy, schema ensures SortPromise(CarefulSort(rows, orderBy, schema), rows, orderBy, schema) {
      CarefulSortKeepsPromise(rows, orderBy, schema);
    }
  }

  type SortBy = f: SortFunction | IsSortBy(f) witness (CarefulSortIsSortBy(); CarefulSort)

  // Left without a value: every theorem holds for every such sort.
  const LibrarySort: SortBy

  lemma LibraryKeepsPromise(rows: seq<Tuple>, orderBy: seq<(Expr, bool)>, schema: Schema)
    ensures SortPromise(LibrarySort(rows, orderBy, schema), rows, orderBy, schema)
  {
    assert IsSortBy(LibrarySort);
  }

  /** ORDER BY delivers a permutation of its rows or panics, and does panic when the first key of one of
      several rows does. Where the comparator orders the rows and no
      comparison of two of them panics it is stable, sorted and the same for every library. */
  lemma LibrarySortDelivers(rows: seq<Tuple>, orderBy: seq<(Expr, bool)>, schema: Schema)
    ensures match LibrarySort(rows, orderBy, schema)
            case Ok(out) => multiset(out) == multiset(rows)
            case Err(e) => e.IsPanic()
    ensures MustPanic(rows, orderBy, schema) ==> LibrarySort(rows, orderBy, schema).Err?
    ensures AllComparable(rows, orderBy, schema) && (forall e :: !MayPanic(rows, e, orderBy, schema)) ==>
              && IsStableSort(StableSort(rows, orderBy, schema), rows, orderBy, schema)
              && LibrarySort(rows, orderBy, schema) == Ok(StableSort(rows, orderBy, schema))
  {
    hide AllComparable, IsStableSort, StableSort;
    LibraryKeepsPromise(rows, orderBy, schema);
    var r := LibrarySort(rows, orderBy, schema);
    if r.Err? && MayPanic(rows, r.error, orderBy, schema) {
      var i, j :| 0 <= i < |rows| && 0 <= j < |rows| && i != j && ComparePanic(rows[i], rows[j], orderBy, schema) == Some(r.error);
      ComparePanicIsFromKey(rows[i], rows[j], orderBy, schema);
    }
    if r.Ok? && AllComparable(rows, orderBy, schema) {
      SortIsStable(rows, orderBy, schema);
      AnyStableSortIsThisOne(r.value, rows, orderBy, schema);
    }
  }
}
