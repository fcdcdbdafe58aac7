/** Column names across scans and joins: what a bare and what a qualified name refers to. */
module Names {
  import opened Wrappers
  import opened Storage
  import opened Catalog
  import opened Planner
  import opened Meaning

  predicate Undotted(name: string) {
    '.' !in name
  }

  function Qualified(qualifier: string, name: string): string {
    qualifier + "." + name
  }

  /** The columns of a table have different names, none with a dot. */
  predicate PlainTable(schema: Schema) {
    && (forall i | 0 <= i < |schema.columns| :: Undotted(schema.columns[i].name))
    && forall i, j | 0 <= i < j < |schema.columns| :: schema.columns[i].name != schema.columns[j].name
  }

  lemma {:induction false} BaseOfQualified(qualifier: string, name: string)
    requires Undotted(name)
    ensures BaseName(Qualified(qualifier, name)) == name
    decreases |name|
  {
    if name != "" {
      var n := |name| - 1;
      BaseOfQualified(qualifier, name[..n]);
      var whole := Qualified(qualifier, name);
      assert whole[..|whole| - 1] == Qualified(qualifier, name[..n]);
      assert whole[|whole| - 1] == name[n] && name[n] in name;
      assert name == name[..n] + [name[n]];
    }
  }

  /** A qualified name splits at its last dot in one way only. */
  lemma SplitAtLastDot(q: string, c: string, r: string, d: string)
    requires Undotted(c) && Undotted(d) && Qualified(q, c) == Qualified(r, d)
    ensures q == r && c == d
  {
    BaseOfQualified(q, c);
    BaseOfQualified(r, d);
    assert Qualified(q, c)[..|q|] == q && Qualified(r, d)[..|r|] == r;
  }

  function QualifierOf(table: string, alias: Option<string>): string {
    if alias.Some? then alias.value else table
  }

  lemma ScanNames(catalog: CatalogMap, table: string, alias: Option<string>, i: nat)
    requires table in catalog && PlainTable(catalog[table]) && i < |catalog[table].columns|
    ensures PlanSchema(Scan(table, alias), catalog).Ok?
    ensures var schema := PlanSchema(Scan(table, alias), catalog).value;
            && |schema.columns| == |catalog[table].columns|
            && schema.columns[i].name == Qualified(QualifierOf(table, alias), catalog[table].columns[i].name)
  {
    assert Undotted(catalog[table].columns[i].name);
  }

  /** Every column of a scanned table is found under its own name and under its qualified name, and
      under no other qualifier. */
  lemma ScannedColumnIsFound(catalog: CatalogMap, table: string, alias: Option<string>, i: nat, other: string)
    requires table in catalog && PlainTable(catalog[table]) && i < |catalog[table].columns|
    requires other != QualifierOf(table, alias)
    ensures PlanSchema(Scan(table, alias), catalog).Ok?
    ensures var schema, name := PlanSchema(Scan(table, alias), catalog).value, catalog[table].columns[i].name;
            && schema.FindColIdx(name) == Some(i)
            && schema.FindColIdx(Qualified(QualifierOf(table, alias), name)) == Some(i)
            && schema.FindColIdx(Qualified(other, name)) == None
  {
    hide PlanSchema, BaseName;
    var q, stored, name := QualifierOf(table, alias), catalog[table].columns, catalog[table].columns[i].name;
    ScanNames(catalog, table, alias, i);
    var schema := PlanSchema(Scan(table, alias), catalog).value;
    forall k | 0 <= k < |stored|
      ensures Matches(schema.columns[k], name) <==> k == i
      ensures Matches(schema.columns[k], Qualified(q, name)) <==> k == i
      ensures !Matches(schema.columns[k], Qualified(other, name))
    {
      ScanNames(catalog, table, alias, k);
      BaseOfQualified(q, stored[k].name);
      assert stored[k].name == name <==> k == i;
      assert Qualified(q, name)[|q|] == '.' && Qualified(other, name)[|other|] == '.';
      if Qualified(q, stored[k].name) == Qualified(q, name) {
        SplitAtLastDot(q, stored[k].name, q, name);
      }
      if Qualified(q, stored[k].name) == Qualified(other, name) {
        SplitAtLastDot(q, stored[k].name, other, name);
      }
    }
  }

  lemma JoinSchema(catalog: CatalogMap, left: LogicalPlan, right: LogicalPlan, cond: Option<Expr>)
    requires PlanSchema(left, catalog).Ok? && PlanSchema(right, catalog).Ok?
    ensures PlanSchema(Join(left, right, cond), catalog) ==
            Ok(Schema(PlanSchema(left, catalog).value.columns + PlanSchema(right, catalog).value.columns))
  {
  }

  /** In a join of two scans under different qualifiers a qualified name refers to its own side, and a
      bare name to the left side if it has such a column, else to the right side. */
  lemma JoinedColumnIsFound(catalog: CatalogMap, table: string, alias: Option<string>, table2: string, alias2: Option<string>,
                            i: nat, j: nat, cond: Option<Expr>)
    requires table in catalog && PlainTable(catalog[table]) && table2 in catalog && PlainTable(catalog[table2])
    requires QualifierOf(table, alias) != QualifierOf(table2, alias2)
    requires i < |catalog[table].columns| && j < |catalog[table2].columns|
    ensures PlanSchema(Join(Scan(table, alias), Scan(table2, alias2), cond), catalog).Ok?
    ensures var schema := PlanSchema(Join(Scan(table, alias), Scan(table2, alias2), cond), catalog).value;
            var name, name2 := catalog[table].columns[i].name, catalog[table2].columns[j].name;
            var width := |catalog[table].columns|;
            && schema.FindColIdx(Qualified(QualifierOf(table, alias), name)) == Some(i)
            && schema.FindColIdx(Qualified(QualifierOf(table2, alias2), name2)) == Some(width + j)
            && schema.FindColIdx(name) == Some(i)
            && ((forall k | 0 <= k < width :: catalog[table].columns[k].name != name2) ==>
                  schema.FindColIdx(name2) == Some(width + j))
  {
    hide Schema.FindColIdx, Qualify, PlanSchema, Undotted;
    var q, q2 := QualifierOf(table, alias), QualifierOf(table2, alias2);
    var name, name2 := catalog[table].columns[i].name, catalog[table2].columns[j].name;
    ScannedColumnIsFound(catalog, table, alias, i, q2);
    ScannedColumnIsFound(catalog, table2, alias2, j, q);
    JoinSchema(catalog, Scan(table, alias), Scan(table2, alias2), cond);
    var ls, rs := PlanSchema(Scan(table, alias), catalog).value, PlanSchema(Scan(table2, alias2), catalog).value;
    ScanWidth(catalog, table, alias);
    ForeignQualifier(catalog, table, alias, q2, name2);
    FindInJoin(ls, rs, Qualified(q, name));
    FindInJoin(ls, rs, Qualified(q2, name2));
    FindInJoin(ls, rs, name);
    FindInJoin(ls, rs, name2);
    if forall k | 0 <= k < |catalog[table].columns| :: catalog[table].columns[k].name != name2 {
      AbsentName(catalog, table, alias, name2);
    }
  }

  lemma ReadsColumn(l: Tuple, r: Tuple, name: string, schema: Schema)
    requires schema.FindColIdx(name).Some? && schema.FindColIdx(name).value < |l.values| + |r.values|
    ensures var k := schema.FindColIdx(name).value;
            Eval(ColRef(name), Combine(l, r).values, schema) ==
            Ok(if k < |l.values| then l.values[k] else r.values[k - |l.values|])
  {
  }

  /** So a joined row, under those names, reads the values of the rows it was joined from. */
  lemma JoinedColumnIsRead(catalog: CatalogMap, table: string, alias: Option<string>, table2: string, alias2: Option<string>,
                           l: Tuple, r: Tuple, i: nat, j: nat, cond: Option<Expr>)
    requires table in catalog && PlainTable(catalog[table]) && table2 in catalog && PlainTable(catalog[table2])
    requires QualifierOf(table, alias) != QualifierOf(table2, alias2)
    requires i < |l.values| == |catalog[table].columns| && j < |r.values| == |catalog[table2].columns|
    ensures PlanSchema(Join(Scan(table, alias), Scan(table2, alias2), cond), catalog).Ok?
    ensures var schema := PlanSchema(Join(Scan(table, alias), Scan(table2, alias2), cond), catalog).value;
            var name, name2 := catalog[table].columns[i].name, catalog[table2].columns[j].name;
            var row := Combine(l, r).values;
            && Eval(ColRef(Qualified(QualifierOf(table, alias), name)), row, schema) == Ok(l.values[i])
            && Eval(ColRef(Qualified(QualifierOf(table2, alias2), name2)), row, schema) == Ok(r.values[j])
            && Eval(ColRef(name), row, schema) == Ok(l.values[i])
            && ((forall k | 0 <= k < |l.values| :: catalog[table].columns[k].name != name2) ==>
                  Eval(ColRef(name2), row, schema) == Ok(r.values[j]))
  {
    hide Schema.FindColIdx, PlanSchema, PlainTable, QualifierOf, Qualified, Eval;
    JoinedColumnIsFound(catalog, table, alias, table2, alias2, i, j, cond);
    var schema := PlanSchema(Join(Scan(table, alias), Scan(table2, alias2), cond), catalog).value;
    var name, name2 := catalog[table].columns[i].name, catalog[table2].columns[j].name;
    ReadsColumn(l, r, Qualified(QualifierOf(table, alias), name), schema);
    ReadsColumn(l, r, Qualified(QualifierOf(table2, alias2), name2), schema);
    ReadsColumn(l, r, name, schema);
    if forall k | 0 <= k < |l.values| :: catalog[table].columns[k].name != name2 {
      ReadsColumn(l, r, name2, schema);
    }
  }

  /** No column is found under the qualifier of another table. */
  lemma ForeignQualifier(catalog: CatalogMap, table: string, alias: Option<string>, other: string, name: string)
    requires table in catalog && PlainTable(catalog[table]) && Undotted(name)
    requires other != QualifierOf(table, alias)
    requires PlanSchema(Scan(table, alias), catalog).Ok?
    ensures PlanSchema(Scan(table, alias), catalog).value.FindColIdx(Qualified(other, name)) == None
  {
    hide PlanSchema, BaseName;
    var q, stored := QualifierOf(table, alias), catalog[table].columns;
    var schema := PlanSchema(Scan(table, alias), catalog).value;
    ScanWidth(catalog, table, alias);
    assert Qualified(other, name)[|other|] == '.';
    forall k | 0 <= k < |schema.columns| ensures !Matches(schema.columns[k], Qualified(other, name)) {
      ScanNames(catalog, table, alias, k);
      if Qualified(q, stored[k].name) == Qualified(other, name) {
        SplitAtLastDot(q, stored[k].name, other, name);
      }
    }
  }

  lemma AbsentName(catalog: CatalogMap, table: string, alias: Option<string>, name: string)
    requires table in catalog && PlainTable(catalog[table]) && Undotted(name)
    requires forall k | 0 <= k < |catalog[table].columns| :: catalog[table].columns[k].name != name
    requires PlanSchema(Scan(table, alias), catalog).Ok?
    ensures PlanSchema(Scan(table, alias), catalog).value.FindColIdx(name) == None
  {
    hide PlanSchema, BaseName;
    var q, stored := QualifierOf(table, alias), catalog[table].columns;
    var schema := PlanSchema(Scan(table, alias), catalog).value;
    ScanWidth(catalog, table, alias);
    forall k | 0 <= k < |schema.columns| ensures !Matches(schema.columns[k], name) {
      ScanNames(catalog, table, alias, k);
      BaseOfQualified(q, stored[k].name);
    }
  }

  lemma ScanWidth(catalog: CatalogMap, table: string, alias: Option<string>)
    requires table in catalog && PlanSchema(Scan(table, alias), catalog).Ok?
    ensures |PlanSchema(Scan(table, alias), catalog).value.columns| == |catalog[table].columns|
  {
  }
}
