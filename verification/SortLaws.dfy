/** What ORDER BY delivers, over the meaning of its child: in terms of evaluated keys and of the order of
    values, not of the comparator. */
module SortLaws {
  import opened Wrappers
  import opened Storage
  import opened Catalog
  import opened Planner
  import opened Transactions
  import opened Sequences
  import opened ValueOrder
  import opened Meaning
  import opened PlanLaws
  import opened Sorting

  predicate Panicking(e: Error) {
    e.PanicIndexOutOfBounds? || e.PanicUnknownAggregate? || e.PanicDivisionOverflow? || e.PanicSortOrder?
  }

  /** The key of a row; one that fails without a panic counts as NULL. */
  function Key(row: Tuple, expr: Expr, schema: Schema): Option<Value> {
    match Eval(expr, row.values, schema)
    case Ok(v) => Some(v)
    case Err(e) => if Panicking(e) then None else Some(Null)
  }

  /** Both rows have the key, of one comparable kind. */
  predicate KeyPair(a: Tuple, b: Tuple, expr: Expr, schema: Schema) {
    && Key(a, expr, schema).Some? && Key(b, expr, schema).Some?
    && OneKind(Key(a, expr, schema).value, Key(b, expr, schema).value)
  }

  predicate KeyPairs(a: Tuple, b: Tuple, keys: seq<(Expr, bool)>, schema: Schema) {
    forall k | 0 <= k < |keys| :: KeyPair(a, b, keys[k].0, schema)
  }

  predicate KeysOfOneKind(rows: seq<Tuple>, keys: seq<(Expr, bool)>, schema: Schema) {
    forall i, j | 0 <= i < |rows| && 0 <= j < |rows| :: KeyPairs(rows[i], rows[j], keys, schema)
  }

  ghost predicate TiedOn(a: Tuple, b: Tuple, expr: Expr, schema: Schema) {
    KeyPair(a, b, expr, schema) && Alike(Key(a, expr, schema).value, Key(b, expr, schema).value)
  }

  /** All keys are equal. */
  ghost predicate Tied(a: Tuple, b: Tuple, keys: seq<(Expr, bool)>, schema: Schema) {
    forall k | 0 <= k < |keys| :: TiedOn(a, b, keys[k].0, schema)
  }

  /** The first key that differs is key k: smaller in row a if it is ascending, larger if descending. */
  ghost predicate AheadAt(a: Tuple, b: Tuple, keys: seq<(Expr, bool)>, schema: Schema, k: nat) {
    && k < |keys| && (forall m | 0 <= m < k :: TiedOn(a, b, keys[m].0, schema))
    && KeyPair(a, b, keys[k].0, schema)
    && var v, w := Key(a, keys[k].0, schema).value, Key(b, keys[k].0, schema).value;
       if keys[k].1 then Before(v, w) else Before(w, v)
  }

  ghost predicate InOrder(a: Tuple, b: Tuple, keys: seq<(Expr, bool)>, schema: Schema) {
    Tied(a, b, keys, schema) || exists k: nat :: AheadAt(a, b, keys, schema, k)
  }

  lemma KeyIs(row: Tuple, expr: Expr, schema: Schema)
    ensures Key(row, expr, schema).Some? <==> KeyPanic(row, expr, schema).None?
    ensures Key(row, expr, schema).Some? ==> SortKey(row, expr, schema) == Key(row, expr, schema).value
    ensures KeyPanic(row, expr, schema).Some? ==> Panicking(KeyPanic(row, expr, schema).value)
  {
  }

  /** Keys are compared as values; keys of which neither is before the other count as equal, whatever their
      kinds. */
  lemma KeysCompare(v: Value, w: Value)
    ensures CompareKeys(v, w) == Less <==> Before(v, w)
    ensures CompareKeys(v, w) == Greater <==> Before(w, v)
  {
    hide Before, Alike;
    PartialCmpIs(v, w);
  }

  lemma OneKindIsComparable(v: Value, w: Value)
    requires OneKind(v, w)
    ensures SameKind(v, w)
    ensures CompareKeys(v, w) == Less <==> Before(v, w)
    ensures CompareKeys(v, w) == Greater <==> Before(w, v)
    ensures CompareKeys(v, w) == Equal <==> Alike(v, w)
  {
    hide Before, Alike;
    KeysCompare(v, w);
    PartialCmpIs(v, w);
    BeforeOrAlike(v, w);
  }

  lemma TailPairs(a: Tuple, b: Tuple, keys: seq<(Expr, bool)>, schema: Schema)
    requires keys != [] && KeyPairs(a, b, keys, schema)
    ensures KeyPair(a, b, keys[0].0, schema) && KeyPairs(a, b, keys[1..], schema)
  {
    hide KeyPair;
    forall k | 0 <= k < |keys| - 1 ensures KeyPair(a, b, keys[1..][k].0, schema) {
      assert keys[1..][k] == keys[k + 1];
    }
  }

  lemma TiedTail(a: Tuple, b: Tuple, keys: seq<(Expr, bool)>, schema: Schema)
    requires keys != []
    ensures Tied(a, b, keys, schema) <==> TiedOn(a, b, keys[0].0, schema) && Tied(a, b, keys[1..], schema)
  {
    hide TiedOn;
    if Tied(a, b, keys[1..], schema) {
      assert forall k | 0 < k < |keys| :: keys[k] == keys[1..][k - 1];
    }
    if Tied(a, b, keys, schema) {
      assert forall k | 0 <= k < |keys| - 1 :: keys[1..][k] == keys[k + 1];
    }
  }

  lemma AheadTail(a: Tuple, b: Tuple, keys: seq<(Expr, bool)>, schema: Schema, k: nat)
    requires keys != [] && TiedOn(a, b, keys[0].0, schema)
    ensures AheadAt(a, b, keys, schema, k + 1) <==> AheadAt(a, b, keys[1..], schema, k)
  {
    hide TiedOn, KeyPair, Before, Key;
    if k + 1 < |keys| {
      assert keys[1..][k] == keys[k + 1];
      assert forall m | 0 < m <= k :: keys[m] == keys[1..][m - 1];
      assert forall m | 0 <= m < k :: keys[1..][m] == keys[m + 1];
    }
  }

  /** The comparator says Equal for tied rows and Less for a row ahead of the other. */
  lemma {:induction false} RowsCompare(a: Tuple, b: Tuple, keys: seq<(Expr, bool)>, schema: Schema)
    requires KeyPairs(a, b, keys, schema)
    ensures CompareRows(a, b, keys, schema) == Equal <==> Tied(a, b, keys, schema)
    ensures CompareRows(a, b, keys, schema) == Less ==> exists k: nat :: AheadAt(a, b, keys, schema, k)
  {
    hide Key, SortKey, CompareKeys, OneKind, Before, Alike, KeyPanic;
    if keys != [] {
      var expr := keys[0].0;
      TailPairs(a, b, keys, schema);
      TiedTail(a, b, keys, schema);
      KeyIs(a, expr, schema);
      KeyIs(b, expr, schema);
      OneKindIsComparable(Key(a, expr, schema).value, Key(b, expr, schema).value);
      RowsCompare(a, b, keys[1..], schema);
      if CompareRows(a, b, keys, schema) == Less {
        if TiedOn(a, b, expr, schema) {
          var k: nat :| AheadAt(a, b, keys[1..], schema, k);
          AheadTail(a, b, keys, schema, k);
        } else {
          FirstAhead(a, b, keys, schema);
        }
      }
    }
  }

  lemma FirstAhead(a: Tuple, b: Tuple, keys: seq<(Expr, bool)>, schema: Schema)
    requires keys != [] && KeyPair(a, b, keys[0].0, schema) && !TiedOn(a, b, keys[0].0, schema)
    requires CompareRows(a, b, keys, schema) == Less
    ensures AheadAt(a, b, keys, schema, 0)
  {
    hide Key, SortKey, CompareKeys, OneKind, Before, Alike, KeyPanic;
    var expr := keys[0].0;
    KeyIs(a, expr, schema);
    KeyIs(b, expr, schema);
    OneKindIsComparable(Key(a, expr, schema).value, Key(b, expr, schema).value);
  }

  lemma PairsAreComparable(rows: seq<Tuple>, keys: seq<(Expr, bool)>, schema: Schema)
    requires KeysOfOneKind(rows, keys, schema)
    ensures AllComparable(rows, keys, schema)
    ensures forall e :: !MayPanic(rows, e, keys, schema)
  {
    hide Key, SortKey, SameKind, OneKind, KeyPanic, ComparePanic;
    forall i, j, k | 0 <= i < |rows| && 0 <= j < |rows| && 0 <= k < |keys|
      ensures SameKind(SortKey(rows[i], keys[k].0, schema), SortKey(rows[j], keys[k].0, schema))
      ensures KeyPanic(rows[i], keys[k].0, schema).None? && KeyPanic(rows[j], keys[k].0, schema).None?
    {
      assert KeyPairs(rows[i], rows[j], keys, schema);
      assert KeyPair(rows[i], rows[j], keys[k].0, schema);
      KeyIs(rows[i], keys[k].0, schema);
      KeyIs(rows[j], keys[k].0, schema);
      OneKindIsComparable(Key(rows[i], keys[k].0, schema).value, Key(rows[j], keys[k].0, schema).value);
    }
    forall e ensures !MayPanic(rows, e, keys, schema) {
      if MayPanic(rows, e, keys, schema) {
        KeysPanic(rows, e, keys, schema);
      }
    }
  }

  lemma KeysPanic(rows: seq<Tuple>, e: Error, keys: seq<(Expr, bool)>, schema: Schema)
    requires MayPanic(rows, e, keys, schema)
    ensures exists i, k :: 0 <= i < |rows| && 0 <= k < |keys| && KeyPanic(rows[i], keys[k].0, schema) == Some(e)
  {
    hide KeyPanic;
    var i, j :| 0 <= i < |rows| && 0 <= j < |rows| && i != j && ComparePanic(rows[i], rows[j], keys, schema) == Some(e);
    ComparePanicIsFromKey(rows[i], rows[j], keys, schema);
  }


  /** The rows of a list that tie with x, in order. */
  ghost function TiedRows(rows: seq<Tuple>, x: Tuple, keys: seq<(Expr, bool)>, schema: Schema): seq<Tuple> {
    if rows == [] then []
    else (if Tied(rows[0], x, keys, schema) then [rows[0]] else []) + TiedRows(rows[1..], x, keys, schema)
  }

  lemma {:induction false} TiesAreTiedRows(rows: seq<Tuple>, x: Tuple, keys: seq<(Expr, bool)>, schema: Schema)
    requires forall r | r in rows :: KeyPairs(r, x, keys, schema)
    ensures Ties(rows, x, keys, schema) == TiedRows(rows, x, keys, schema)
  {
    hide CompareRows, KeyPairs, Tied;
    if rows != [] {
      TiesAreTiedRows(rows[1..], x, keys, schema);
      RowsCompare(rows[0], x, keys, schema);
    }
  }

  lemma PairOf(rows: seq<Tuple>, a: Tuple, b: Tuple, keys: seq<(Expr, bool)>, schema: Schema)
    requires KeysOfOneKind(rows, keys, schema) && a in rows && b in rows
    ensures KeyPairs(a, b, keys, schema)
  {
  }

  /** ORDER BY over keys of one kind each: the rows of the child, rearranged so that of two rows the earlier
      one is tied with the later one or ahead of it, and rows that tie stay in the order they came in. */
  lemma SortDelivers(child: LogicalPlan, keys: seq<(Expr, bool)>, catalog: CatalogMap, ctx: ExecutionContext,
                     schema: Schema, rows: seq<Tuple>) returns (out: seq<Tuple>)
    requires PlanSchema(child, catalog) == Ok(schema) && Delivers(child, catalog, ctx, rows, Done)
    requires KeysOfOneKind(rows, keys, schema)
    ensures Delivers(Sort(child, keys), catalog, ctx, out, Done)
    ensures multiset(out) == multiset(rows)
    ensures forall i, j | 0 <= i < j < |out| :: InOrder(out[i], out[j], keys, schema)
    ensures forall x | x in rows :: TiedRows(out, x, keys, schema) == TiedRows(rows, x, keys, schema)
  {
    hide Denote, PlanSchema, AllComparable, MayPanic, StableSort, KeysOfOneKind, KeyPairs, CompareRows, Ties, TiedRows, InOrder;
    DenoteUnfolds(Sort(child, keys), catalog, ctx);
    PairsAreComparable(rows, keys, schema);
    LibrarySortDelivers(rows, keys, schema);
    out := StableSort(rows, keys, schema);
    SameBag(out, rows);
    forall i, j | 0 <= i < j < |out| ensures InOrder(out[i], out[j], keys, schema) {
      PairOf(rows, out[i], out[j], keys, schema);
      SortedIsInOrder(out[i], out[j], keys, schema);
    }
    forall x | x in rows ensures TiedRows(out, x, keys, schema) == TiedRows(rows, x, keys, schema) {
      forall r | r in rows ensures KeyPairs(r, x, keys, schema) {
        PairOf(rows, r, x, keys, schema);
      }
      TiesAreTiedRows(out, x, keys, schema);
      TiesAreTiedRows(rows, x, keys, schema);
    }
  }

  lemma SortedIsInOrder(a: Tuple, b: Tuple, keys: seq<(Expr, bool)>, schema: Schema)
    requires KeyPairs(a, b, keys, schema) && CompareRows(a, b, keys, schema) != Greater
    ensures InOrder(a, b, keys, schema)
  {
    hide KeyPairs, Tied, AheadAt, CompareRows;
    RowsCompare(a, b, keys, schema);
  }

  /** Whatever the keys are, ORDER BY fails to start as its child ends, if that fails; else it delivers a
      rearrangement or panics. It panics only if some key does or the keys are not of one kind each, and it
      does panic if there are two rows or more and the first key of one of them panics. */
  lemma SortAnyKeys(child: LogicalPlan, keys: seq<(Expr, bool)>, catalog: CatalogMap, ctx: ExecutionContext,
                    schema: Schema, rows: seq<Tuple>, end: End) returns (out: seq<Tuple>, e: Error)
    requires PlanSchema(child, catalog) == Ok(schema) && Delivers(child, catalog, ctx, rows, end)
    ensures end.Fail? ==> FailsToStart(Sort(child, keys), catalog, ctx, end.error)
    ensures end.Done? ==>
              || (Delivers(Sort(child, keys), catalog, ctx, out, Done) && multiset(out) == multiset(rows))
              || (FailsToStart(Sort(child, keys), catalog, ctx, e) && Panicking(e) && !KeysOfOneKind(rows, keys, schema))
    ensures end.Done? && |rows| >= 2 && keys != [] && (exists i :: 0 <= i < |rows| && Key(rows[i], keys[0].0, schema).None?) ==>
              FailsToStart(Sort(child, keys), catalog, ctx, e)
  {
    hide Denote, PlanSchema, AllComparable, MayPanic, StableSort, KeysOfOneKind, IsStableSort, Key;
    DenoteUnfolds(Sort(child, keys), catalog, ctx);
    LibrarySortDelivers(rows, keys, schema);
    out, e := [], StarHasNoType;
    match LibrarySort(rows, keys, schema) {
      case Ok(sorted) => out := sorted;
      case Err(error) => e := error;
    }
    if KeysOfOneKind(rows, keys, schema) {
      PairsAreComparable(rows, keys, schema);
    }
    forall i | 0 <= i < |rows| && keys != [] ensures Key(rows[i], keys[0].0, schema).None? <==> KeyPanic(rows[i], keys[0].0, schema).Some? {
      KeyIs(rows[i], keys[0].0, schema);
    }
  }
}
