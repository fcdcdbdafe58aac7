/** Schemas, column lookup by name and the table directory (src/catalog.rs). */
module Catalog {
  import opened Wrappers

  datatype DataType = IntType | FloatType | VarcharType | BoolType

  datatype Column = Column(name: string, dataType: DataType)

  /** The part of a column name after its last dot, or the whole name. */
  function BaseName(name: string): string {
    if name == "" || name[|name| - 1] == '.' then ""
    else BaseName(name[..|name| - 1]) + [name[|name| - 1]]
  }

  /** A name with a dot must match exactly; a bare name matches the base of a column name. */
  predicate Matches(col: Column, name: string) {
    if '.' in name then col.name == name else BaseName(col.name) == name
  }

  datatype Schema = Schema(columns: seq<Column>) {
    function FindColIdx(name: string): (idx: Option<nat>)
      ensures idx.Some? ==>
                && idx.value < |columns|
                && Matches(columns[idx.value], name)
                && forall k | 0 <= k < idx.value :: !Matches(columns[k], name)
      ensures idx.None? ==> forall k | 0 <= k < |columns| :: !Matches(columns[k], name)
    {
      FindFrom(name, 0)
    }

    function FindFrom(name: string, from: nat): (idx: Option<nat>)
      requires from <= |columns|
      ensures idx.Some? ==>
                && from <= idx.value < |columns|
                && Matches(columns[idx.value], name)
                && forall k | from <= k < idx.value :: !Matches(columns[k], name)
      ensures idx.None? ==> forall k | from <= k < |columns| :: !Matches(columns[k], name)
      decreases |columns| - from
    {
      if from == |columns| then None
      else if Matches(columns[from], name) then Some(from)
      else FindFrom(name, from + 1)
    }
  }

  type CatalogMap = map<string, Schema>

  function GetSchema(catalog: CatalogMap, name: string): Option<Schema> {
    if name in catalog then Some(catalog[name]) else None
  }

  /** The table directory. */
  class CatalogStore {
    var tables: CatalogMap

    constructor ()
      ensures tables == map[]
    {
      tables := map[];
    }

    method AddTable(name: string, schema: Schema)
      modifies this
      ensures tables == old(tables)[name := schema]
    {
      tables := tables[name := schema];
    }
  }

  /** Lookup in two schemas side by side: the left one first, then the right one, shifted. */
  lemma FindInJoin(left: Schema, right: Schema, name: string)
    ensures Schema(left.columns + right.columns).FindColIdx(name) ==
            match left.FindColIdx(name)
            case Some(i) => Some(i)
            case None =>
              match right.FindColIdx(name)
              case Some(j) => Some(|left.columns| + j)
              case None => None
  {
    hide Matches;
    var both := Schema(left.columns + right.columns);
    var found := both.FindColIdx(name);
    match left.FindColIdx(name) {
      case Some(i) =>
        assert both.columns[i] == left.columns[i];
        assert found.Some? ==> forall k | 0 <= k < |left.columns| :: both.columns[k] == left.columns[k];
      case None =>
        assert forall k | 0 <= k < |left.columns| :: both.columns[k] == left.columns[k];
        assert forall k | 0 <= k < |right.columns| :: both.columns[|left.columns| + k] == right.columns[k];
        match right.FindColIdx(name)
        case Some(j) =>
        case None =>
    }
  }
}
