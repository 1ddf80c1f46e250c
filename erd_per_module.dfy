/**
 * The per-module Mermaid ERD generator. Its input is the entity metadata
 * that the metadata printer emits as JSON; an array-valued property that may
 * be missing (`Array.isArray(x) ? x : []`) is an `Option<seq<...>>`.
 *
 * The generated text is first described as a sequence of items (table
 * blocks and relation lines, in output order) by `ModuleItems`; the builder
 * methods are proved to print exactly `DiagramText(ModuleItems(...))`, and
 * the properties of the diagram are proved about the items.
 */
module ErdPerModule {
  import opened Common
  import opened Erd

  datatype ColumnMeta = ColumnMeta(databaseName: string, colType: Option<string>, isPrimary: bool)
  datatype UniqueMeta = UniqueMeta(name: Option<string>, columns: Option<seq<string>>)
  /** What a table block is rendered from; `inverseEntityMetadata` has this shape too. */
  datatype TableMeta = TableMeta(
    name: string,
    tableName: string,
    columns: Option<seq<ColumnMeta>>,
    uniques: Option<seq<UniqueMeta>>)
  datatype RelationMeta = RelationMeta(
    propertyName: string,
    relationType: string,
    isOwning: bool,
    joinColumnsCount: Option<int>,
    inverseEntityMetadata: Option<TableMeta>)
  datatype EntityMeta = EntityMeta(table: TableMeta, relations: Option<seq<RelationMeta>>)

  /** `toTableName(m.tableName || m.name)`: an empty table name falls back to the entity name. */
  function TableOf(m: TableMeta): string {
    ToTableName(if m.tableName != "" then m.tableName else m.name)
  }

  function Relations(m: EntityMeta): seq<RelationMeta> {
    m.relations.GetOr([])
  }

  // ---------------------------------------------------------------- uniques

  /** An entry of `compositeUniques`. */
  datatype CompositeUnique = CompositeUnique(name: Option<string>, columns: seq<string>)

  function ColumnsOf(u: UniqueMeta): set<string> {
    if u.columns.Some? then set c | c in u.columns.value else {}
  }

  /** The `uniqueCols` set: every column named by some unique constraint. */
  function UniqueColumns(uniques: seq<UniqueMeta>): set<string>
    decreases |uniques|
  {
    if uniques == [] then {}
    else UniqueColumns(uniques[..|uniques| - 1]) + ColumnsOf(uniques[|uniques| - 1])
  }

  /** The `compositeUniques` list: the constraints over more than one column. */
  function CompositeUniques(uniques: seq<UniqueMeta>): (cs: seq<CompositeUnique>)
    ensures |cs| <= |uniques|
    ensures forall i :: 0 <= i < |cs| ==> |cs[i].columns| > 1
    decreases |uniques|
  {
    if uniques == [] then []
    else
      var u := uniques[|uniques| - 1];
      CompositeUniques(uniques[..|uniques| - 1])
        + (if u.columns.Some? && |u.columns.value| > 1 then [CompositeUnique(u.name, u.columns.value)] else [])
  }

  /** A column is a unique-key column iff some constraint lists it. */
  lemma {:induction false} UniqueColumnsMembers(uniques: seq<UniqueMeta>, col: string)
    ensures col in UniqueColumns(uniques)
        <==> exists i :: 0 <= i < |uniques| && uniques[i].columns.Some? && col in uniques[i].columns.value
    decreases |uniques|
  {
    if uniques != [] {
      var n := |uniques| - 1;
      var init := uniques[..n];
      UniqueColumnsMembers(init, col);
      if col in UniqueColumns(uniques) {
        if col in UniqueColumns(init) {
          var i :| 0 <= i < |init| && init[i].columns.Some? && col in init[i].columns.value;
          assert uniques[i] == init[i];
        } else {
          assert uniques[n].columns.Some? && col in uniques[n].columns.value;
        }
      } else {
        forall i | 0 <= i < |uniques| && uniques[i].columns.Some?
          ensures col !in uniques[i].columns.value
        {
          if i < n {
            assert uniques[i] == init[i];
          }
        }
      }
    }
  }

  /** The list of composite constraints splits with its input: the filter keeps the original order. */
  lemma {:induction false} CompositeUniquesAppend(a: seq<UniqueMeta>, b: seq<UniqueMeta>)
    ensures CompositeUniques(a + b) == CompositeUniques(a) + CompositeUniques(b)
    decreases |b|
  {
    if b == [] {
      assert a + b == a;
    } else {
      var n := |b| - 1;
      CompositeUniquesAppend(a, b[..n]);
      assert (a + b)[..|a + b| - 1] == a + b[..n];
      assert (a + b)[|a + b| - 1] == b[n];
    }
  }

  /**
   * Exactly the constraints over more than one column are listed, with their
   * name and columns.
   */
  lemma {:induction false} CompositeUniquesMembers(uniques: seq<UniqueMeta>, c: CompositeUnique)
    ensures c in CompositeUniques(uniques)
        <==> exists i :: 0 <= i < |uniques| && uniques[i].columns == Some(c.columns) && uniques[i].name == c.name
                         && |c.columns| > 1
    decreases |uniques|
  {
    if uniques != [] {
      var n := |uniques| - 1;
      var init := uniques[..n];
      CompositeUniquesMembers(init, c);
      if c in CompositeUniques(uniques) {
        if c in CompositeUniques(init) {
          var i :| 0 <= i < |init| && init[i].columns == Some(c.columns) && init[i].name == c.name && |c.columns| > 1;
          assert uniques[i] == init[i];
        }
      } else {
        forall i | 0 <= i < |uniques| && uniques[i].columns == Some(c.columns) && |c.columns| > 1
          ensures uniques[i].name != c.name
        {
          if i < n {
            assert uniques[i] == init[i];
          }
        }
      }
    }
  }

  /** `uniqueInfoForMeta`. */
  method UniqueInfoForMeta(m: TableMeta) returns (uniqueCols: set<string>, compositeUniques: seq<CompositeUnique>)
    ensures uniqueCols == UniqueColumns(m.uniques.GetOr([]))
    ensures compositeUniques == CompositeUniques(m.uniques.GetOr([]))
  {
    var uniques := m.uniques.GetOr([]);
    uniqueCols := {};
    for i := 0 to |uniques|
      invariant uniqueCols == UniqueColumns(uniques[..i])
    {
      var u := uniques[i];
      var cols := u.columns.GetOr([]);
      ghost var before := uniqueCols;
      for j := 0 to |cols|
        invariant uniqueCols == before + set c | c in cols[..j]
      {
        uniqueCols := uniqueCols + {cols[j]};
        assert cols[..j + 1] == cols[..j] + [cols[j]];
      }
      assert cols[..|cols|] == cols;
      assert uniques[..i + 1][..i] == uniques[..i];
    }
    assert uniques[..|uniques|] == uniques;
    compositeUniques := CompositeUniques(uniques);
  }

  // ---------------------------------------------------------------- items

  /** A table block: the external marker, the column rows, the composite-unique notes. */
  datatype TableBlock = TableBlock(external: bool, table: string, rows: seq<ColumnRow>, notes: seq<CompositeUnique>)

  datatype Item = Table(block: TableBlock) | Edge(edge: EdgeLine)

  function RowOf(c: ColumnMeta, uniqueCols: set<string>): ColumnRow {
    ColumnRow(c.colType.GetOr("unknown"), c.databaseName, c.isPrimary, c.databaseName in uniqueCols)
  }

  /** The block `renderTable(m, isExternal)` prints. */
  function BlockOf(m: TableMeta, isExternal: bool): TableBlock {
    var cols := m.columns.GetOr([]);
    var uniqueCols := UniqueColumns(m.uniques.GetOr([]));
    TableBlock(isExternal, TableOf(m),
               seq(|cols|, i requires 0 <= i < |cols| => RowOf(cols[i], uniqueCols)),
               CompositeUniques(m.uniques.GetOr([])))
  }

  /**
   * A table block has one row per column, in order; a row is marked `PK`
   * iff its column is primary and `UK` iff some unique constraint lists it.
   */
  lemma BlockRows(m: TableMeta, isExternal: bool, i: int)
    requires 0 <= i < |m.columns.GetOr([])|
    ensures var b := BlockOf(m, isExternal); var c := m.columns.GetOr([])[i];
      && |b.rows| == |m.columns.GetOr([])|
      && b.rows[i].name == c.databaseName
      && b.rows[i].sqlType == c.colType.GetOr("unknown")
      && (b.rows[i].pk <==> c.isPrimary)
      && (b.rows[i].uk <==> exists k :: 0 <= k < |m.uniques.GetOr([])| && m.uniques.GetOr([])[k].columns.Some?
                                        && c.databaseName in m.uniques.GetOr([])[k].columns.value)
  {
    UniqueColumnsMembers(m.uniques.GetOr([]), m.columns.GetOr([])[i].databaseName);
  }

  /** The edge `relLine` prints for a relation of the table `fromTable`. */
  function EdgeOf(fromTable: string, r: RelationMeta): EdgeLine
    requires r.inverseEntityMetadata.Some?
  {
    EdgeLine(fromTable, r.relationType, TableOf(r.inverseEntityMetadata.value), r.propertyName)
  }

  /** The owning-side heuristic: `isOwning`, or a positive join-column count. */
  predicate IsOwningSide(r: RelationMeta) {
    r.isOwning || r.joinColumnsCount.GetOr(0) > 0
  }

  function IncludedTables(metas: seq<EntityMeta>): set<string> {
    set m | m in metas :: TableOf(m.table)
  }

  function TableItems(metas: seq<EntityMeta>): seq<Item> {
    seq(|metas|, i requires 0 <= i < |metas| => TableItem(metas[i]))
  }

  /**
   * One iteration of the relations loop: the items it prints and the set
   * of external tables rendered so far afterwards.
   */
  function RelationStep(included: set<string>, includeExternal: bool, added: set<string>,
                        fromTable: string, r: RelationMeta): (seq<Item>, set<string>)
  {
    match r.inverseEntityMetadata
    case None => ([], added)
    case Some(inv) =>
      var toTable := TableOf(inv);
      if !IsOwningSide(r) then ([], added)
      else if toTable in included then ([Edge(EdgeOf(fromTable, r))], added)
      else if !includeExternal then ([], added)
      else if toTable in added then ([Edge(EdgeOf(fromTable, r))], added)
      else ([Table(BlockOf(inv, true)), Edge(EdgeOf(fromTable, r))], added + {toTable})
  }

  /** The relations loop over the relations `rs` of one table. */
  function RelationsFold(included: set<string>, includeExternal: bool, added: set<string>,
                         fromTable: string, rs: seq<RelationMeta>): (seq<Item>, set<string>)
    decreases |rs|
  {
    if rs == [] then ([], added)
    else
      var prev := RelationsFold(included, includeExternal, added, fromTable, rs[..|rs| - 1]);
      var step := RelationStep(included, includeExternal, prev.1, fromTable, rs[|rs| - 1]);
      (prev.0 + step.0, step.1)
  }

  /** The relations loop over all metas. */
  function MetasFold(included: set<string>, includeExternal: bool, added: set<string>,
                     metas: seq<EntityMeta>): (seq<Item>, set<string>)
    decreases |metas|
  {
    if metas == [] then ([], added)
    else
      var prev := MetasFold(included, includeExternal, added, metas[..|metas| - 1]);
      var m := metas[|metas| - 1];
      var step := RelationsFold(included, includeExternal, prev.1, TableOf(m.table), Relations(m));
      (prev.0 + step.0, step.1)
  }

  /** Everything `buildErdForEntityMetas` prints between the header and the final newline, in order. */
  function ModuleItems(metas: seq<EntityMeta>, includeExternal: bool): seq<Item> {
    TableItems(metas) + MetasFold(IncludedTables(metas), includeExternal, {}, metas).0
  }

  // ---------------------------------------------------------------- text

  const ExternalMarker: string := "  %% referenced from other module\n"

  /** `  %% UNIQUE${name}: (${colsList})\n`; an empty name is omitted like a missing one. */
  function NoteText(u: CompositeUnique): string {
    "  %% UNIQUE" + (if u.name.Some? && u.name.value != "" then " (" + u.name.value + ")" else "")
      + ": (" + JoinWith(u.columns, ", ") + ")\n"
  }

  function NotesText(notes: seq<CompositeUnique>): string
    decreases |notes|
  {
    if notes == [] then "" else NotesText(notes[..|notes| - 1]) + NoteText(notes[|notes| - 1])
  }

  /** The external marker, if any, and the opening line of the block. */
  function OpenText(b: TableBlock): string {
    (if b.external then ExternalMarker else "") + ("  " + b.table + " {\n")
  }

  function TableText(b: TableBlock): string {
    OpenText(b) + RowsText(b.rows) + "  }\n" + NotesText(b.notes)
  }

  function ItemText(it: Item): string {
    match it
    case Table(b) => TableText(b)
    case Edge(e) => EdgeText(e)
  }

  function ItemsText(items: seq<Item>): string {
    ConcatMap(items, ItemText)
  }

  function DiagramText(items: seq<Item>): string {
    "erDiagram\n" + ItemsText(items) + "\n"
  }

  /** Every diagram starts with the `erDiagram` header line and ends with a newline. */
  lemma DiagramTextFrame(items: seq<Item>)
    ensures var d := DiagramText(items);
      |d| >= 11 && d[..10] == "erDiagram\n" && d[|d| - 1] == '\n'
  {
  }

  lemma Concat5(o: string, a: string, b: string, c: string, d: string)
    ensures o + a + b + c + d == o + (a + b + c + d)
  {
  }

  lemma OneEdgeText(e: EdgeLine)
    ensures ItemsText([Edge(e)]) == EdgeText(e)
  {
    ConcatMapSnoc([], Edge(e), ItemText);
    assert [] + [Edge(e)] == [Edge(e)];
  }

  lemma TableAndEdgeText(b: TableBlock, e: EdgeLine)
    ensures ItemsText([Table(b), Edge(e)]) == TableText(b) + EdgeText(e)
  {
    ConcatMapSnoc([], Table(b), ItemText);
    ConcatMapSnoc([Table(b)], Edge(e), ItemText);
    assert [] + [Table(b)] == [Table(b)];
    assert [Table(b)] + [Edge(e)] == [Table(b), Edge(e)];
  }

  /** The table block of a module entity, as the first loop prints it. */
  function TableItem(m: EntityMeta): Item {
    Table(BlockOf(m.table, false))
  }

  function TableItemText(m: EntityMeta): string {
    ItemText(TableItem(m))
  }

  /** The table blocks, item by item, print the same text as entity by entity. */
  lemma TablesTextIsItemsText(metas: seq<EntityMeta>)
    ensures ItemsText(TableItems(metas)) == ConcatMap(metas, TableItemText)
  {
    var items := TableItems(metas);
    forall i | 0 <= i < |metas|
      ensures ItemText(items[i]) == TableItemText(metas[i])
    {
      assert items[i] == TableItem(metas[i]);
    }
    ConcatMapPointwise(items, metas, ItemText, TableItemText);
  }

  /** One more relation in the relations loop appends the items of its step. */
  lemma RelationsFoldSnoc(included: set<string>, includeExternal: bool, added: set<string>,
                          fromTable: string, rs: seq<RelationMeta>, j: int)
    requires 0 <= j < |rs|
    ensures var prev := RelationsFold(included, includeExternal, added, fromTable, rs[..j]);
      var step := RelationStep(included, includeExternal, prev.1, fromTable, rs[j]);
      var next := RelationsFold(included, includeExternal, added, fromTable, rs[..j + 1]);
      ItemsText(next.0) == ItemsText(prev.0) + ItemsText(step.0) && next.1 == step.1
  {
    var prev := RelationsFold(included, includeExternal, added, fromTable, rs[..j]);
    var step := RelationStep(included, includeExternal, prev.1, fromTable, rs[j]);
    assert rs[..j + 1][..j] == rs[..j];
    ConcatMapAppend(prev.0, step.0, ItemText);
  }

  /** One more entity in the outer relations loop appends the items of its relations. */
  lemma MetasFoldSnoc(included: set<string>, includeExternal: bool, added: set<string>,
                      metas: seq<EntityMeta>, i: int)
    requires 0 <= i < |metas|
    ensures var prev := MetasFold(included, includeExternal, added, metas[..i]);
      var step := RelationsFold(included, includeExternal, prev.1, TableOf(metas[i].table), Relations(metas[i]));
      var next := MetasFold(included, includeExternal, added, metas[..i + 1]);
      ItemsText(next.0) == ItemsText(prev.0) + ItemsText(step.0) && next.1 == step.1
  {
    var prev := MetasFold(included, includeExternal, added, metas[..i]);
    var step := RelationsFold(included, includeExternal, prev.1, TableOf(metas[i].table), Relations(metas[i]));
    assert metas[..i + 1][..i] == metas[..i];
    ConcatMapAppend(prev.0, step.0, ItemText);
  }

  // ---------------------------------------------------------------- builder

  /** The state the nested helpers of `buildErdForEntityMetas` share: `out` and `addedExternalTables`. */
  class ModuleErd {
    const includedTables: set<string>
    var out: string
    var addedExternalTables: set<string>

    constructor (includedTables: set<string>)
      ensures this.includedTables == includedTables
      ensures out == "erDiagram\n" && addedExternalTables == {}
    {
      this.includedTables := includedTables;
      out := "erDiagram\n";
      addedExternalTables := {};
    }

    /** `renderTable`: appends one table block. */
    method RenderTable(m: TableMeta, isExternal: bool)
      modifies this
      ensures out == old(out) + TableText(BlockOf(m, isExternal))
      ensures addedExternalTables == old(addedExternalTables)
    {
      ghost var block := BlockOf(m, isExternal);
      var table := TableOf(m);
      if isExternal {
        out := out + ExternalMarker;
      }
      var cols := m.columns.GetOr([]);
      var uniqueCols, compositeUniques := UniqueInfoForMeta(m);
      AppendAssoc(old(out), if isExternal then ExternalMarker else "", "  " + table + " {\n");
      out := out + ("  " + table + " {\n");
      assert out == old(out) + OpenText(block);
      RenderColumns(cols, uniqueCols);
      out := out + "  }\n";
      RenderCompositeUniques(compositeUniques);
      Concat5(old(out), OpenText(block), RowsText(block.rows), "  }\n", NotesText(block.notes));
    }

    /** The column loop of `renderTable`. */
    method RenderColumns(cols: seq<ColumnMeta>, uniqueCols: set<string>)
      modifies this
      ensures out == old(out) + RowsText(seq(|cols|, i requires 0 <= i < |cols| => RowOf(cols[i], uniqueCols)))
      ensures addedExternalTables == old(addedExternalTables)
    {
      ghost var rows := seq(|cols|, i requires 0 <= i < |cols| => RowOf(cols[i], uniqueCols));
      for i := 0 to |cols|
        invariant out == old(out) + RowsText(rows[..i])
        invariant addedExternalTables == old(addedExternalTables)
      {
        var c := cols[i];
        var t := c.colType.GetOr("unknown");
        var line := RowText(ColumnRow(t, c.databaseName, c.isPrimary, c.databaseName in uniqueCols));
        assert rows[..i + 1][..i] == rows[..i];
        AppendAssoc(old(out), RowsText(rows[..i]), line);
        out := out + line;
      }
      assert rows[..|cols|] == rows;
    }

    /** The composite-unique comment loop of `renderTable`. */
    method RenderCompositeUniques(compositeUniques: seq<CompositeUnique>)
      modifies this
      ensures out == old(out) + NotesText(compositeUniques)
      ensures addedExternalTables == old(addedExternalTables)
    {
      for i := 0 to |compositeUniques|
        invariant out == old(out) + NotesText(compositeUniques[..i])
        invariant addedExternalTables == old(addedExternalTables)
      {
        var line := NoteText(compositeUniques[i]);
        assert compositeUniques[..i + 1][..i] == compositeUniques[..i];
        AppendAssoc(old(out), NotesText(compositeUniques[..i]), line);
        out := out + line;
      }
      assert compositeUniques[..|compositeUniques|] == compositeUniques;
    }

    /** `renderExternalTable`: a table outside the module, rendered the first time it is referenced. */
    method RenderExternalTable(invMeta: TableMeta)
      modifies this
      ensures TableOf(invMeta) in includedTables || TableOf(invMeta) in old(addedExternalTables) ==>
                out == old(out) && addedExternalTables == old(addedExternalTables)
      ensures TableOf(invMeta) !in includedTables && TableOf(invMeta) !in old(addedExternalTables) ==>
                && out == old(out) + TableText(BlockOf(invMeta, true))
                && addedExternalTables == old(addedExternalTables) + {TableOf(invMeta)}
    {
      var tName := TableOf(invMeta);
      if tName in includedTables || tName in addedExternalTables {
        return;
      }
      addedExternalTables := addedExternalTables + {tName};
      RenderTable(invMeta, true);
    }

    /** One iteration of the relations loop of `buildErdForEntityMetas`. */
    method RenderRelation(fromTable: string, r: RelationMeta, includeExternalRelations: bool)
      modifies this
      ensures out == old(out) + ItemsText(RelationStep(includedTables, includeExternalRelations, old(addedExternalTables), fromTable, r).0)
      ensures addedExternalTables
           == RelationStep(includedTables, includeExternalRelations, old(addedExternalTables), fromTable, r).1
    {
      assert ItemsText([]) == "";
      if r.inverseEntityMetadata.None? {
        return;
      }
      var inv := r.inverseEntityMetadata.value;
      var toTable := TableOf(inv);
      var isOwningSide := r.isOwning || r.joinColumnsCount.GetOr(0) > 0;
      if !isOwningSide {
        return;
      }
      var targetInModule := toTable in includedTables;
      if !targetInModule {
        if !includeExternalRelations {
          return;
        }
        RenderExternalTable(inv);
      }
      var left, right := SwitchCardinality(r.relationType);
      var line := "  " + fromTable + " " + left + "--" + right + " " + toTable + " : \"" + r.propertyName + "\"\n";
      assert line == EdgeText(EdgeOf(fromTable, r));
      if !targetInModule && toTable !in old(addedExternalTables) {
        AppendAssoc(old(out), TableText(BlockOf(inv, true)), line);
        TableAndEdgeText(BlockOf(inv, true), EdgeOf(fromTable, r));
      } else {
        OneEdgeText(EdgeOf(fromTable, r));
      }
      out := out + line;
    }

    /** The relations loop over the relations of one entity. */
    method RenderRelationsOf(m: EntityMeta, includeExternalRelations: bool)
      modifies this
      ensures out == old(out) + ItemsText(RelationsFold(includedTables, includeExternalRelations, old(addedExternalTables),
                                                        TableOf(m.table), Relations(m)).0)
      ensures addedExternalTables == RelationsFold(includedTables, includeExternalRelations, old(addedExternalTables),
                                                   TableOf(m.table), Relations(m)).1
    {
      var fromTable := TableOf(m.table);
      var relations := m.relations.GetOr([]);
      assert ItemsText([]) == "";
      for j := 0 to |relations|
        invariant out == old(out) + ItemsText(RelationsFold(includedTables, includeExternalRelations, old(addedExternalTables),
                                                            fromTable, relations[..j]).0)
        invariant addedExternalTables == RelationsFold(includedTables, includeExternalRelations, old(addedExternalTables),
                                                       fromTable, relations[..j]).1
      {
        ghost var prev := RelationsFold(includedTables, includeExternalRelations, old(addedExternalTables), fromTable, relations[..j]);
        RenderRelation(fromTable, relations[j], includeExternalRelations);
        RelationsFoldSnoc(includedTables, includeExternalRelations, old(addedExternalTables), fromTable, relations, j);
        AppendAssoc(old(out), ItemsText(prev.0),
                    ItemsText(RelationStep(includedTables, includeExternalRelations, prev.1, fromTable, relations[j]).0));
      }
      assert relations[..|relations|] == relations;
    }

    /** The first loop of `buildErdForEntityMetas`: the module's own tables, in order. */
    method RenderModuleTables(metas: seq<EntityMeta>)
      modifies this
      ensures out == old(out) + ConcatMap(metas, TableItemText)
      ensures addedExternalTables == old(addedExternalTables)
    {
      for i := 0 to |metas|
        invariant out == old(out) + ConcatMap(metas[..i], TableItemText)
        invariant addedExternalTables == old(addedExternalTables)
      {
        RenderTable(metas[i].table, false);
        ConcatMapTake(metas, i, TableItemText);
        AppendAssoc(old(out), ConcatMap(metas[..i], TableItemText), TableItemText(metas[i]));
      }
      assert metas[..|metas|] == metas;
    }

    /** The second loop of `buildErdForEntityMetas`: the relations of every entity, in order. */
    method RenderModuleRelations(metas: seq<EntityMeta>, includeExternalRelations: bool)
      modifies this
      ensures out == old(out) + ItemsText(MetasFold(includedTables, includeExternalRelations, old(addedExternalTables), metas).0)
      ensures addedExternalTables == MetasFold(includedTables, includeExternalRelations, old(addedExternalTables), metas).1
    {
      assert ItemsText([]) == "";
      for i := 0 to |metas|
        invariant out == old(out) + ItemsText(MetasFold(includedTables, includeExternalRelations, old(addedExternalTables), metas[..i]).0)
        invariant addedExternalTables == MetasFold(includedTables, includeExternalRelations, old(addedExternalTables), metas[..i]).1
      {
        ghost var prev := MetasFold(includedTables, includeExternalRelations, old(addedExternalTables), metas[..i]);
        RenderRelationsOf(metas[i], includeExternalRelations);
        MetasFoldSnoc(includedTables, includeExternalRelations, old(addedExternalTables), metas, i);
        AppendAssoc(old(out), ItemsText(prev.0),
                    ItemsText(RelationsFold(includedTables, includeExternalRelations, prev.1,
                                            TableOf(metas[i].table), Relations(metas[i])).0));
      }
      assert metas[..|metas|] == metas;
    }
  }

  /** The cardinality `switch`. */
  method SwitchCardinality(relationType: string) returns (left: string, right: string)
    ensures (left, right) == Cardinality(relationType)
  {
    left := "||";
    right := "||";
    if relationType == "many-to-one" {
      left, right := "}o", "||";
    } else if relationType == "one-to-many" {
      left, right := "||", "o{";
    } else if relationType == "one-to-one" {
      left, right := "||", "||";
    } else if relationType == "many-to-many" {
      left, right := "}o", "o{";
    } else {
      left, right := "||", "||";
    }
  }

  /** `buildErdForEntityMetas`: prints exactly the module's items. */
  method BuildErdForEntityMetas(metas: seq<EntityMeta>, includeExternalRelations: bool) returns (out: string)
    ensures out == DiagramText(ModuleItems(metas, includeExternalRelations))
  {
    var includedTables := IncludedTables(metas);
    var b := new ModuleErd(includedTables);
    b.RenderModuleTables(metas);
    b.RenderModuleRelations(metas, includeExternalRelations);
    b.out := b.out + "\n";
    out := b.out;
    DiagramTextIsModuleText(metas, includeExternalRelations);
  }

  /** The text the builder appends piece by piece is the text of the module's items. */
  lemma DiagramTextIsModuleText(metas: seq<EntityMeta>, includeExternal: bool)
    ensures DiagramText(ModuleItems(metas, includeExternal))
         == "erDiagram\n" + ConcatMap(metas, TableItemText)
              + ItemsText(MetasFold(IncludedTables(metas), includeExternal, {}, metas).0) + "\n"
  {
    var rels := MetasFold(IncludedTables(metas), includeExternal, {}, metas).0;
    TablesTextIsItemsText(metas);
    ConcatMapAppend(TableItems(metas), rels, ItemText);
    AppendAssoc("erDiagram\n", ConcatMap(metas, TableItemText), ItemsText(rels));
  }

  // ---------------------------------------------------------------- properties

  /** Whether a relation gets a line: it has a target, is on the owning side, and the target is printable. */
  predicate Emits(included: set<string>, includeExternal: bool, r: RelationMeta) {
    && r.inverseEntityMetadata.Some?
    && IsOwningSide(r)
    && (TableOf(r.inverseEntityMetadata.value) in included || includeExternal)
  }

  /** The names of the external table blocks, in output order. */
  function ExternalTables(items: seq<Item>): seq<string>
    decreases |items|
  {
    if items == [] then []
    else
      var it := items[|items| - 1];
      ExternalTables(items[..|items| - 1]) + (if it.Table? && it.block.external then [it.block.table] else [])
  }

  predicate NoDuplicates(s: seq<string>) {
    forall i, j :: 0 <= i < j < |s| ==> s[i] != s[j]
  }

  lemma {:induction false} ExternalTablesAppend(a: seq<Item>, b: seq<Item>)
    ensures ExternalTables(a + b) == ExternalTables(a) + ExternalTables(b)
    decreases |b|
  {
    if b == [] {
      assert a + b == a;
    } else {
      var n := |b| - 1;
      ExternalTablesAppend(a, b[..n]);
      assert (a + b)[..|a + b| - 1] == a + b[..n];
      assert (a + b)[|a + b| - 1] == b[n];
    }
  }

  /** Appending a table name that is new keeps a list free of duplicates. */
  lemma NoDuplicatesSnoc(s: seq<string>, t: string)
    requires NoDuplicates(s) && t !in s
    ensures NoDuplicates(s + [t])
  {
    forall i, j | 0 <= i < j < |s + [t]|
      ensures (s + [t])[i] != (s + [t])[j]
    {
      if j == |s| {
        assert (s + [t])[i] == s[i];
      } else {
        assert (s + [t])[i] == s[i] && (s + [t])[j] == s[j];
      }
    }
  }

  lemma OneEdgeShape(e: EdgeLine)
    ensures ExternalTables([Edge(e)]) == []
    ensures forall x :: x in [Edge(e)] <==> x == Edge(e)
  {
    assert [Edge(e)][..0] == [];
  }

  lemma TableAndEdgeShape(b: TableBlock, e: EdgeLine)
    requires b.external
    ensures ExternalTables([Table(b), Edge(e)]) == [b.table]
    ensures forall x :: x in [Table(b), Edge(e)] <==> x == Table(b) || x == Edge(e)
  {
    assert [Table(b), Edge(e)][..1] == [Table(b)];
    assert [Table(b)][..0] == [];
    assert ExternalTables([Table(b)]) == [b.table];
  }

  /** What one relation contributes: its edge exactly when it is emitted, and at most one new external table. */
  lemma RelationStepShape(included: set<string>, includeExternal: bool, added: set<string>,
                          fromTable: string, r: RelationMeta)
    ensures var st := RelationStep(included, includeExternal, added, fromTable, r);
      && (forall e :: Edge(e) in st.0 <==> Emits(included, includeExternal, r) && e == EdgeOf(fromTable, r))
      && (forall it :: it in st.0 && it.Table? ==> it.block.external && includeExternal)
      && ((ExternalTables(st.0) == [] && st.1 == added)
          || (&& includeExternal && r.inverseEntityMetadata.Some?
              && var t := TableOf(r.inverseEntityMetadata.value);
                 ExternalTables(st.0) == [t] && t !in included && t !in added && st.1 == added + {t}))
  {
    var st := RelationStep(included, includeExternal, added, fromTable, r);
    if st.0 == [] {
      assert ExternalTables(st.0) == [];
    } else if |st.0| == 1 {
      OneEdgeShape(EdgeOf(fromTable, r));
    } else {
      TableAndEdgeShape(BlockOf(r.inverseEntityMetadata.value, true), EdgeOf(fromTable, r));
    }
  }

  /** The relations loop prints the edge of a relation exactly when that relation is emitted. */
  lemma {:induction false} RelationsFoldEdges(included: set<string>, includeExternal: bool, added: set<string>,
                                              fromTable: string, rs: seq<RelationMeta>, e: EdgeLine)
    ensures Edge(e) in RelationsFold(included, includeExternal, added, fromTable, rs).0
        <==> exists r :: r in rs && Emits(included, includeExternal, r) && e == EdgeOf(fromTable, r)
    decreases |rs|
  {
    if rs != [] {
      var n := |rs| - 1;
      var prev := RelationsFold(included, includeExternal, added, fromTable, rs[..n]);
      RelationsFoldEdges(included, includeExternal, added, fromTable, rs[..n], e);
      RelationStepShape(included, includeExternal, prev.1, fromTable, rs[n]);
      assert rs == rs[..n] + [rs[n]];
    }
  }

  /** Every table block the relations loop prints is marked external. */
  lemma {:induction false} RelationsFoldTables(included: set<string>, includeExternal: bool, added: set<string>,
                                               fromTable: string, rs: seq<RelationMeta>)
    ensures forall it :: it in RelationsFold(included, includeExternal, added, fromTable, rs).0 && it.Table?
              ==> it.block.external && includeExternal
    decreases |rs|
  {
    if rs != [] {
      var n := |rs| - 1;
      var prev := RelationsFold(included, includeExternal, added, fromTable, rs[..n]);
      RelationsFoldTables(included, includeExternal, added, fromTable, rs[..n]);
      RelationStepShape(included, includeExternal, prev.1, fromTable, rs[n]);
    }
  }

  /**
   * The relations loop prints each external table at most once, never one
   * of the module's tables or one printed before it, and records exactly
   * the tables it printed; with external relations off it prints none.
   */
  lemma {:induction false} RelationsFoldExternals(included: set<string>, includeExternal: bool, added: set<string>,
                                                  fromTable: string, rs: seq<RelationMeta>)
    ensures var f := RelationsFold(included, includeExternal, added, fromTable, rs);
      && NoDuplicates(ExternalTables(f.0))
      && (forall t :: t in ExternalTables(f.0) ==> t !in included && t !in added)
      && f.1 == added + (set t | t in ExternalTables(f.0))
      && (!includeExternal ==> ExternalTables(f.0) == [])
    decreases |rs|
  {
    if rs != [] {
      var n := |rs| - 1;
      var prev := RelationsFold(included, includeExternal, added, fromTable, rs[..n]);
      var st := RelationStep(included, includeExternal, prev.1, fromTable, rs[n]);
      RelationsFoldExternals(included, includeExternal, added, fromTable, rs[..n]);
      RelationStepShape(included, includeExternal, prev.1, fromTable, rs[n]);
      ExternalTablesAppend(prev.0, st.0);
      if ExternalTables(st.0) != [] {
        NoDuplicatesSnoc(ExternalTables(prev.0), ExternalTables(st.0)[0]);
      }
    }
  }

  /** Whether some relation of the entity `m` is emitted as the edge `e`. */
  predicate EmittedBy(included: set<string>, includeExternal: bool, m: EntityMeta, e: EdgeLine) {
    exists r :: r in Relations(m) && Emits(included, includeExternal, r) && e == EdgeOf(TableOf(m.table), r)
  }

  /** The outer relations loop prints the edge of exactly the emitted relations of all entities. */
  lemma {:induction false} MetasFoldEdges(included: set<string>, includeExternal: bool, added: set<string>,
                                          metas: seq<EntityMeta>, e: EdgeLine)
    ensures Edge(e) in MetasFold(included, includeExternal, added, metas).0
        <==> exists m :: m in metas && EmittedBy(included, includeExternal, m, e)
    decreases |metas|
  {
    if metas != [] {
      var n := |metas| - 1;
      var prev := MetasFold(included, includeExternal, added, metas[..n]);
      var m := metas[n];
      var st := RelationsFold(included, includeExternal, prev.1, TableOf(m.table), Relations(m));
      MetasFoldEdges(included, includeExternal, added, metas[..n], e);
      RelationsFoldEdges(included, includeExternal, prev.1, TableOf(m.table), Relations(m), e);
      assert MetasFold(included, includeExternal, added, metas).0 == prev.0 + st.0;
      if Edge(e) in prev.0 {
        var w :| w in metas[..n] && EmittedBy(included, includeExternal, w, e);
        InPrefix(metas, n, w);
      } else if Edge(e) in st.0 {
        assert EmittedBy(included, includeExternal, m, e);
      }
      if exists w :: w in metas && EmittedBy(included, includeExternal, w, e) {
        var w :| w in metas && EmittedBy(included, includeExternal, w, e);
        InPrefixOrLast(metas, w);
      }
    }
  }

  lemma {:induction false} MetasFoldTables(included: set<string>, includeExternal: bool, added: set<string>,
                                           metas: seq<EntityMeta>)
    ensures forall it :: it in MetasFold(included, includeExternal, added, metas).0 && it.Table?
              ==> it.block.external && includeExternal
    decreases |metas|
  {
    if metas != [] {
      var n := |metas| - 1;
      var prev := MetasFold(included, includeExternal, added, metas[..n]);
      MetasFoldTables(included, includeExternal, added, metas[..n]);
      RelationsFoldTables(included, includeExternal, prev.1, TableOf(metas[n].table), Relations(metas[n]));
    }
  }

  lemma {:induction false} MetasFoldExternals(included: set<string>, includeExternal: bool, added: set<string>,
                                              metas: seq<EntityMeta>)
    ensures var f := MetasFold(included, includeExternal, added, metas);
      && NoDuplicates(ExternalTables(f.0))
      && (forall t :: t in ExternalTables(f.0) ==> t !in included && t !in added)
      && f.1 == added + (set t | t in ExternalTables(f.0))
      && (!includeExternal ==> ExternalTables(f.0) == [])
    decreases |metas|
  {
    if metas != [] {
      var n := |metas| - 1;
      var prev := MetasFold(included, includeExternal, added, metas[..n]);
      var m := metas[n];
      var st := RelationsFold(included, includeExternal, prev.1, TableOf(m.table), Relations(m));
      MetasFoldExternals(included, includeExternal, added, metas[..n]);
      RelationsFoldExternals(included, includeExternal, prev.1, TableOf(m.table), Relations(m));
      ExternalTablesAppend(prev.0, st.0);
      DisjointConcat(ExternalTables(prev.0), ExternalTables(st.0), prev.1);
    }
  }

  /** Two duplicate-free lists, the second avoiding a set that holds the first, concatenate without duplicates. */
  lemma DisjointConcat(a: seq<string>, b: seq<string>, seen: set<string>)
    requires NoDuplicates(a) && NoDuplicates(b)
    requires forall t :: t in a ==> t in seen
    requires forall t :: t in b ==> t !in seen
    ensures NoDuplicates(a + b)
  {
    forall i, j | 0 <= i < j < |a + b|
      ensures (a + b)[i] != (a + b)[j]
    {
      if j < |a| {
        assert (a + b)[i] == a[i] && (a + b)[j] == a[j];
      } else if i < |a| {
        assert (a + b)[i] == a[i] && (a + b)[j] == b[j - |a|];
        assert a[i] in a && b[j - |a|] in b;
      } else {
        assert (a + b)[i] == b[i - |a|] && (a + b)[j] == b[j - |a|];
      }
    }
  }

  /** The module's own tables are never external. */
  lemma {:induction false} TableItemsExternals(metas: seq<EntityMeta>)
    ensures ExternalTables(TableItems(metas)) == []
    decreases |metas|
  {
    if metas != [] {
      var n := |metas| - 1;
      TableItemsExternals(metas[..n]);
      assert TableItems(metas)[..n] == TableItems(metas[..n]);
    }
  }

  // ---------------------------------------------------------------- the diagram of a module

  /**
   * The diagram holds a relation line exactly for the emitted relations of
   * the module's entities: a target, the owning side, and a target inside
   * the module unless external relations are included.
   */
  lemma ModuleEdges(metas: seq<EntityMeta>, includeExternal: bool, e: EdgeLine)
    ensures Edge(e) in ModuleItems(metas, includeExternal)
        <==> exists m, r :: m in metas && r in Relations(m) && Emits(IncludedTables(metas), includeExternal, r)
                            && e == EdgeOf(TableOf(m.table), r)
  {
    MetasFoldEdges(IncludedTables(metas), includeExternal, {}, metas, e);
    assert Edge(e) !in TableItems(metas);
    assert Edge(e) in ModuleItems(metas, includeExternal)
       <==> exists m :: m in metas && EmittedBy(IncludedTables(metas), includeExternal, m, e);
  }

  /**
   * The non-external table blocks are exactly the blocks of the module's
   * entities; an external block appears only when external relations are
   * included.
   */
  lemma ModuleTables(metas: seq<EntityMeta>, includeExternal: bool, b: TableBlock)
    ensures Table(b) in ModuleItems(metas, includeExternal) && !b.external
        <==> exists m :: m in metas && b == BlockOf(m.table, false)
    ensures Table(b) in ModuleItems(metas, includeExternal) && b.external ==> includeExternal
  {
    var items := TableItems(metas);
    MetasFoldTables(IncludedTables(metas), includeExternal, {}, metas);
    if Table(b) in items {
      var i :| 0 <= i < |items| && items[i] == Table(b);
      assert b == BlockOf(metas[i].table, false);
    }
    if exists m :: m in metas && b == BlockOf(m.table, false) {
      var m :| m in metas && b == BlockOf(m.table, false);
      var i :| 0 <= i < |metas| && metas[i] == m;
      assert items[i] == Table(b);
    }
  }

  /**
   * `renderExternalTable` de-duplicates: every external table appears at
   * most once, none is one of the module's tables, and none appears at all
   * when external relations are off.
   */
  lemma ModuleExternals(metas: seq<EntityMeta>, includeExternal: bool)
    ensures var ext := ExternalTables(ModuleItems(metas, includeExternal));
      && NoDuplicates(ext)
      && (forall t :: t in ext ==> t !in IncludedTables(metas))
      && (!includeExternal ==> ext == [])
  {
    var rels := MetasFold(IncludedTables(metas), includeExternal, {}, metas).0;
    MetasFoldExternals(IncludedTables(metas), includeExternal, {}, metas);
    TableItemsExternals(metas);
    ExternalTablesAppend(TableItems(metas), rels);
  }

  /** With external relations off, every relation line points at one of the module's tables. */
  lemma ModuleEdgesStayInside(metas: seq<EntityMeta>, e: EdgeLine)
    requires Edge(e) in ModuleItems(metas, false)
    ensures e.toTable in IncludedTables(metas)
  {
    ModuleEdges(metas, false, e);
  }
}
