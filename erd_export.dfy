/**
 * The global Mermaid ERD export. Its input is the live entity metadata of
 * the data source, so every list is present; a column's `type` is either a
 * type name, a constructor function (known by its `name`), or something else.
 */
module ErdExport {
  import opened Common
  import opened Erd

  datatype ColumnType = TypeName(name: string) | TypeFunction(functionName: string) | TypeOther

  datatype ExportColumn = ExportColumn(databaseName: string, colType: ColumnType, isPrimary: bool)
  /** A unique constraint, by the database names of its columns. */
  datatype ExportUnique = ExportUnique(columns: seq<string>)
  /** The names of a relation's target entity. */
  datatype EntityRef = EntityRef(name: string, tableName: string)
  datatype ExportRelation = ExportRelation(
    propertyName: string,
    relationType: string,
    isOwning: bool,
    joinColumnsCount: Option<nat>,
    isManyToManyOwner: bool,
    inverseEntityMetadata: EntityRef)
  datatype ExportEntity = ExportEntity(
    name: string,
    tableName: string,
    columns: seq<ExportColumn>,
    uniques: seq<ExportUnique>,
    relations: seq<ExportRelation>)

  /**
   * `sqlTypeFromColumn`: a type name as it is, `string` for a function named
   * `string`, and `unknown` for anything else.
   */
  function SqlTypeFromColumn(t: ColumnType): (s: string)
    ensures t.TypeName? ==> s == t.name
    ensures t.TypeFunction? ==> (s == "string" <==> t.functionName == "string")
    ensures !t.TypeName? ==> s == "string" || s == "unknown"
    ensures t.TypeOther? ==> s == "unknown"
  {
    match t
    case TypeName(name) => name
    case TypeFunction(fn) => if fn == "string" then "string" else "unknown"
    case TypeOther => "unknown"
  }

  /**
   * TypeORM records a column declared with the `String` constructor by
   * that function, whose name is `String`; such a column prints as `unknown`.
   */
  lemma StringConstructorIsUnknown()
    ensures SqlTypeFromColumn(TypeFunction("String")) == "unknown"
  {
    assert "String" != "string" by {
      assert "String"[0] != "string"[0];
    }
  }

  function EntityTable(name: string, tableName: string): string {
    ToTableName(if tableName != "" then tableName else name)
  }

  function TableOf(m: ExportEntity): string {
    EntityTable(m.name, m.tableName)
  }

  /** The names of all columns that some unique constraint of the entity lists. */
  function UniqueColumnSet(uniques: seq<ExportUnique>): (cols: set<string>)
  {
    set u, c | u in uniques && c in u.columns :: c
  }

  function ExportRow(c: ExportColumn, uniqueColumns: set<string>): ColumnRow {
    ColumnRow(SqlTypeFromColumn(c.colType), c.databaseName, c.isPrimary, c.databaseName in uniqueColumns)
  }

  function ExportRows(m: ExportEntity): seq<ColumnRow> {
    var uniqueColumns := UniqueColumnSet(m.uniques);
    seq(|m.columns|, i requires 0 <= i < |m.columns| => ExportRow(m.columns[i], uniqueColumns))
  }

  /**
   * The table block has one row per column, in order; a row is marked `PK`
   * iff its column is primary and `UK` iff some unique constraint lists it.
   */
  lemma ExportRowsMarkers(m: ExportEntity, i: int)
    requires 0 <= i < |m.columns|
    ensures var rows := ExportRows(m); var c := m.columns[i];
      && |rows| == |m.columns|
      && rows[i].name == c.databaseName && rows[i].sqlType == SqlTypeFromColumn(c.colType)
      && (rows[i].pk <==> c.isPrimary)
      && (rows[i].uk <==> exists u :: u in m.uniques && c.databaseName in u.columns)
  {
  }

  const TableClose: string := "  }\n\n"

  /** One table block: the opening line, the rows, and the closing line followed by a blank line. */
  function ExportTableText(m: ExportEntity): string {
    "  " + TableOf(m) + " {\n" + RowsText(ExportRows(m)) + TableClose
  }

  /** Every table block is closed by `  }` and a blank line. */
  lemma ExportTableClosed(m: ExportEntity)
    ensures var t := ExportTableText(m);
      |t| >= 5 && t[|t| - 5..] == "  }\n\n"
  {
    var body := "  " + TableOf(m) + " {\n" + RowsText(ExportRows(m));
    assert ExportTableText(m) == body + TableClose;
    assert (body + TableClose)[|body|..] == TableClose;
  }

  /** The owning-side heuristic: `isOwning`, join columns, or the owner of a many-to-many. */
  predicate IsOwningSide(r: ExportRelation) {
    r.isOwning || r.joinColumnsCount.GetOr(0) > 0 || r.isManyToManyOwner
  }

  function ExportEdge(fromTable: string, r: ExportRelation): EdgeLine {
    EdgeLine(fromTable, r.relationType,
             EntityTable(r.inverseEntityMetadata.name, r.inverseEntityMetadata.tableName), r.propertyName)
  }

  /** The edges of the relations `rs` of the table `fromTable`, in order. */
  function RelationEdges(fromTable: string, rs: seq<ExportRelation>): (es: seq<EdgeLine>)
    ensures |es| <= |rs|
    decreases |rs|
  {
    if rs == [] then []
    else
      var r := rs[|rs| - 1];
      RelationEdges(fromTable, rs[..|rs| - 1]) + (if IsOwningSide(r) then [ExportEdge(fromTable, r)] else [])
  }

  function EntityEdges(m: ExportEntity): seq<EdgeLine> {
    RelationEdges(TableOf(m), m.relations)
  }

  function AllEdges(metas: seq<ExportEntity>): seq<EdgeLine>
    decreases |metas|
  {
    if metas == [] then [] else AllEdges(metas[..|metas| - 1]) + EntityEdges(metas[|metas| - 1])
  }

  /** The whole export: every table block, then every relation line, then a final newline. */
  function ExportText(metas: seq<ExportEntity>): string {
    "erDiagram\n" + ConcatMap(metas, ExportTableText) + ConcatMap(AllEdges(metas), EdgeText) + "\n"
  }

  /** The export starts with the `erDiagram` header line and ends with a newline. */
  lemma ExportTextFrame(metas: seq<ExportEntity>)
    ensures var d := ExportText(metas);
      |d| >= 11 && d[..10] == "erDiagram\n" && d[|d| - 1] == '\n'
  {
  }

  /** A relation of `fromTable` yields an edge exactly when it is on the owning side, whatever its target. */
  lemma {:induction false} RelationEdgesMembers(fromTable: string, rs: seq<ExportRelation>, e: EdgeLine)
    ensures e in RelationEdges(fromTable, rs) <==> exists r :: r in rs && IsOwningSide(r) && e == ExportEdge(fromTable, r)
    decreases |rs|
  {
    if rs != [] {
      var n := |rs| - 1;
      RelationEdgesMembers(fromTable, rs[..n], e);
      assert rs == rs[..n] + [rs[n]];
    }
  }

  /** Whether some owning-side relation of `m` is printed as the edge `e`. */
  predicate EmittedBy(m: ExportEntity, e: EdgeLine) {
    exists r :: r in m.relations && IsOwningSide(r) && e == ExportEdge(TableOf(m), r)
  }

  /**
   * The export holds a relation line exactly for the owning-side relations
   * of all entities; nothing is filtered by module or by target.
   */
  lemma {:induction false} AllEdgesMembers(metas: seq<ExportEntity>, e: EdgeLine)
    ensures e in AllEdges(metas) <==> exists m :: m in metas && EmittedBy(m, e)
    decreases |metas|
  {
    if metas != [] {
      var n := |metas| - 1;
      var m := metas[n];
      AllEdgesMembers(metas[..n], e);
      RelationEdgesMembers(TableOf(m), m.relations, e);
      assert AllEdges(metas) == AllEdges(metas[..n]) + EntityEdges(m);
      if e in AllEdges(metas[..n]) {
        var w :| w in metas[..n] && EmittedBy(w, e);
        InPrefix(metas, n, w);
      } else if e in EntityEdges(m) {
        assert EmittedBy(m, e);
      }
      if exists w :: w in metas && EmittedBy(w, e) {
        var w :| w in metas && EmittedBy(w, e);
        InPrefixOrLast(metas, w);
      }
    }
  }

  lemma RelationEdgesTake(fromTable: string, rs: seq<ExportRelation>, j: int)
    requires 0 <= j < |rs|
    ensures ConcatMap(RelationEdges(fromTable, rs[..j + 1]), EdgeText)
         == ConcatMap(RelationEdges(fromTable, rs[..j]), EdgeText)
              + (if IsOwningSide(rs[j]) then EdgeText(ExportEdge(fromTable, rs[j])) else "")
  {
    var step := if IsOwningSide(rs[j]) then [ExportEdge(fromTable, rs[j])] else [];
    assert rs[..j + 1][..j] == rs[..j];
    ConcatMapAppend(RelationEdges(fromTable, rs[..j]), step, EdgeText);
    if IsOwningSide(rs[j]) {
      ConcatMapOne(ExportEdge(fromTable, rs[j]), EdgeText);
    }
  }

  lemma AllEdgesTake(metas: seq<ExportEntity>, i: int)
    requires 0 <= i < |metas|
    ensures ConcatMap(AllEdges(metas[..i + 1]), EdgeText)
         == ConcatMap(AllEdges(metas[..i]), EdgeText) + ConcatMap(EntityEdges(metas[i]), EdgeText)
  {
    assert metas[..i + 1][..i] == metas[..i];
    ConcatMapAppend(AllEdges(metas[..i]), EntityEdges(metas[i]), EdgeText);
  }

  /** The cardinality `if`s: later matches would overwrite earlier ones, but the cases exclude each other. */
  method IfCardinality(relationType: string) returns (left: string, right: string)
    ensures (left, right) == Cardinality(relationType)
  {
    left := "||";
    right := "||";
    if relationType == "many-to-one" {
      left := "}o";
      right := "||";
    }
    if relationType == "one-to-many" {
      left := "||";
      right := "o{";
    }
    if relationType == "one-to-one" {
      left := "||";
      right := "||";
    }
    if relationType == "many-to-many" {
      left := "}o";
      right := "o{";
    }
  }

  /** The body of the table loop: appends one table block to `out`. */
  method AppendTable(out: string, m: ExportEntity) returns (res: string)
    ensures res == out + ExportTableText(m)
  {
    var table := EntityTable(m.name, m.tableName);
    var open := "  " + table + " {\n";
    res := out + open;
    var uniqueColumns := set u, c | u in m.uniques && c in u.columns :: c;
    ghost var rows := ExportRows(m);
    for i := 0 to |m.columns|
      invariant res == out + open + RowsText(rows[..i])
    {
      var c := m.columns[i];
      var t := SqlTypeFromColumn(c.colType);
      var pk := c.isPrimary;
      var uq := c.databaseName in uniqueColumns;
      var line := RowText(ColumnRow(t, c.databaseName, pk, uq));
      assert rows[..i + 1][..i] == rows[..i];
      AppendAssoc(out + open, RowsText(rows[..i]), line);
      res := res + line;
    }
    assert rows[..|m.columns|] == rows;
    res := res + TableClose;
    AppendAssoc(out, open, RowsText(rows));
    AppendAssoc(out, open + RowsText(rows), TableClose);
  }

  /** The body of the outer relations loop: appends the lines of one entity's owning-side relations. */
  method AppendRelations(out: string, m: ExportEntity) returns (res: string)
    ensures res == out + ConcatMap(EntityEdges(m), EdgeText)
  {
    var fromTable := EntityTable(m.name, m.tableName);
    res := out;
    for j := 0 to |m.relations|
      invariant res == out + ConcatMap(RelationEdges(fromTable, m.relations[..j]), EdgeText)
    {
      var r := m.relations[j];
      var toTable := EntityTable(r.inverseEntityMetadata.name, r.inverseEntityMetadata.tableName);
      var name := r.propertyName;
      var left, right := IfCardinality(r.relationType);
      var isOwningSide := r.isOwning || r.joinColumnsCount.GetOr(0) > 0 || r.isManyToManyOwner;
      RelationEdgesTake(fromTable, m.relations, j);
      if isOwningSide {
        var line := "  " + fromTable + " " + left + "--" + right + " " + toTable + " : \"" + name + "\"\n";
        assert line == EdgeText(ExportEdge(fromTable, r));
        AppendAssoc(out, ConcatMap(RelationEdges(fromTable, m.relations[..j]), EdgeText), line);
        res := res + line;
      }
    }
    assert m.relations[..|m.relations|] == m.relations;
  }

  /** `buildErdForEntities`: prints exactly `ExportText`. */
  method BuildErdForEntities(metas: seq<ExportEntity>) returns (out: string)
    ensures out == ExportText(metas)
  {
    out := "erDiagram\n";
    for i := 0 to |metas|
      invariant out == "erDiagram\n" + ConcatMap(metas[..i], ExportTableText)
    {
      out := AppendTable(out, metas[i]);
      ConcatMapTake(metas, i, ExportTableText);
      AppendAssoc("erDiagram\n", ConcatMap(metas[..i], ExportTableText), ExportTableText(metas[i]));
    }
    assert metas[..|metas|] == metas;
    ghost var head := out;
    for i := 0 to |metas|
      invariant out == head + ConcatMap(AllEdges(metas[..i]), EdgeText)
    {
      out := AppendRelations(out, metas[i]);
      AllEdgesTake(metas, i);
      AppendAssoc(head, ConcatMap(AllEdges(metas[..i]), EdgeText), ConcatMap(EntityEdges(metas[i]), EdgeText));
    }
    assert metas[..|metas|] == metas;
    out := out + "\n";
  }
}
