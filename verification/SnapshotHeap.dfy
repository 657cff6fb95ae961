/** schema/types.go on the heap: snapshots as objects, cloning, sorting in place and validating them. */
module SnapshotHeap {
  import opened Text
  import opened Sorting
  import opened SchemaModel
  import opened Wrappers

  // ---------------------------------------------------------- what a snapshot says

  /** What a clone of a column copies whole: kinds, flags, defaults, tags, the type's own name and metadata. */
  datatype ColumnDef = ColumnDef(name: string, other: map<string, string>)

  /** An element type of an array type; `def` holds its name, kind and lengths. */
  datatype ElementV = ElementV(def: map<string, string>, enumValues: seq<string>, metadata: map<string, string>)

  /** `elements` is the chain below Type.ArrayOf: for an array of arrays it has two entries. */
  datatype ColumnV = ColumnV(def: ColumnDef, enumValues: seq<string>, elements: seq<ElementV>)
  datatype TableHead = TableHead(name: string, indexes: seq<Index>, constraints: seq<Constraint>,
      other: map<string, string>)
  datatype TableV = TableV(head: TableHead, columns: seq<ColumnV>)
  datatype EnumV = EnumV(name: string, values: seq<string>, metadata: map<string, string>)
  datatype ViewV = ViewV(name: string, other: map<string, string>)
  datatype SchemaHead = SchemaHead(name: string, version: int, enums: seq<EnumV>, views: seq<ViewV>)
  datatype SchemaV = SchemaV(head: SchemaHead, tables: seq<TableV>)
  datatype SnapshotV = SnapshotV(generatedAt: int, schema: Option<SchemaV>)

  function ColumnVName(c: ColumnV): string { c.def.name }
  function TableVName(t: TableV): string { t.head.name }
  function EnumName(e: EnumV): string { e.name }
  function ViewName(v: ViewV): string { v.name }

  function SortHead(h: TableHead): TableHead {
    h.(indexes := SortByName(h.indexes, IndexName), constraints := SortByName(h.constraints, ConstraintName))
  }

  function SortSchemaHead(h: SchemaHead): SchemaHead {
    h.(enums := SortByName(h.enums, EnumName), views := SortByName(h.views, ViewName))
  }

  function SortTableV(t: TableV): TableV {
    TableV(SortHead(t.head), SortByName(t.columns, ColumnVName))
  }

  function SortEach(ts: seq<TableV>): (r: seq<TableV>)
    ensures |r| == |ts|
  {
    seq(|ts|, i requires 0 <= i < |ts| => SortTableV(ts[i]))
  }

  /** Schema.Sort, if there is a schema. */
  function Sorted(s: SnapshotV): SnapshotV {
    match s.schema
    case None => s
    case Some(schema) => s.(schema := Some(SchemaV(SortSchemaHead(schema.head),
        SortEach(SortByName(schema.tables, TableVName)))))
  }

  /** Schema.Validate: table names and, in each table, column names are there and differ. */
  predicate ValidTables(ts: seq<TableV>) {
    ValidNames(ts, TableVName) && forall i :: 0 <= i < |ts| ==> ValidNames(ts[i].columns, ColumnVName)
  }

  predicate ValidSnapshot(s: SnapshotV) {
    s.schema.None? || ValidTables(s.schema.value.tables)
  }

  // ------------------------------------------------------------------- the objects

  class StringMap {
    var entries: map<string, string>

    constructor (entries: map<string, string>)
      ensures this.entries == entries
    {
      this.entries := entries;
    }
  }

  /** A schema.Type behind a pointer. */
  class Element {
    var def: map<string, string>
    var enumValues: array<string>
    var metadata: StringMap
    var arrayOf: Element?
    /** The column whose type points to it, if one does directly. */
    ghost const owner: Column?

    constructor (def: map<string, string>, enumValues: array<string>, metadata: StringMap, arrayOf: Element?,
                 ghost owner: Column?)
      ensures this.def == def && this.enumValues == enumValues && this.metadata == metadata &&
        this.arrayOf == arrayOf && this.owner == owner
    {
      this.def, this.enumValues, this.metadata, this.arrayOf, this.owner := def, enumValues, metadata, arrayOf, owner;
    }
  }

  class Column {
    var def: ColumnDef
    var enumValues: array<string>
    var arrayOf: Element?

    constructor (def: ColumnDef, enumValues: array<string>)
      ensures this.def == def && this.enumValues == enumValues && arrayOf == null
    {
      this.def, this.enumValues, arrayOf := def, enumValues, null;
    }
  }

  class Table {
    var head: TableHead
    var columns: seq<Column>

    constructor (head: TableHead, columns: seq<Column>)
      ensures this.head == head && this.columns == columns
    {
      this.head, this.columns := head, columns;
    }
  }

  /** A snapshot together with the schema object it points to. */
  class Snapshot {
    var generatedAt: int
    var hasSchema: bool
    var head: SchemaHead
    var tables: seq<Table>
    /** Its own objects, which a clone copies, and those a clone shares. */
    ghost var repr: set<object>
    ghost var shared: set<object>

    constructor (generatedAt: int, hasSchema: bool, head: SchemaHead, tables: seq<Table>, ghost parts: set<object>,
                 ghost shared: set<object>)
      ensures this.generatedAt == generatedAt && this.hasSchema == hasSchema && this.head == head &&
        this.tables == tables
      ensures repr == parts + {this} && this.shared == shared
    {
      this.generatedAt, this.hasSchema, this.head, this.tables := generatedAt, hasSchema, head, tables;
      this.repr, this.shared := parts + {this}, shared;
    }
  }

  ghost predicate ElementSays(e: Element, v: ElementV, shared: set<object>)
    reads e, shared
  {
    && e.def == v.def && e.enumValues in shared && e.enumValues[..] == v.enumValues
    && e.metadata in shared && e.metadata.entries == v.metadata
  }

  /** A chain of element types that copies of a column have in common. */
  ghost predicate ChainSays(e: Element?, vs: seq<ElementV>, shared: set<object>)
    reads shared
    decreases |vs|
  {
    if vs == [] then e == null
    else e != null && e in shared && e.owner == null && ElementSays(e, vs[0], shared) &&
         ChainSays(e.arrayOf, vs[1..], shared)
  }

  /** The element type a column's type points to is the column's own; everything below it is shared. */
  ghost predicate ElementsSay(c: Column, e: Element?, vs: seq<ElementV>, parts: set<object>, shared: set<object>)
    reads parts, shared
  {
    if vs == [] then e == null
    else e != null && e in parts && e.owner == c && ElementSays(e, vs[0], shared) &&
         ChainSays(e.arrayOf, vs[1..], shared)
  }

  ghost predicate ColumnSays(c: Column, v: ColumnV, parts: set<object>, shared: set<object>)
    reads parts, shared
  {
    && c in parts && c.enumValues in shared && c.def == v.def && c.enumValues[..] == v.enumValues
    && ElementsSay(c, c.arrayOf, v.elements, parts, shared)
  }

  ghost predicate ColumnsSay(cs: seq<Column>, vs: seq<ColumnV>, parts: set<object>, shared: set<object>)
    reads parts, shared
  {
    |cs| == |vs| && forall i :: 0 <= i < |cs| ==> ColumnSays(cs[i], vs[i], parts, shared)
  }

  ghost predicate TableSays(t: Table, v: TableV, parts: set<object>, shared: set<object>)
    reads parts, shared
  {
    t in parts && t.head == v.head && ColumnsSay(t.columns, v.columns, parts, shared)
  }

  ghost predicate TablesSay(ts: seq<Table>, vs: seq<TableV>, parts: set<object>, shared: set<object>)
    reads parts, shared
  {
    |ts| == |vs| && forall i :: 0 <= i < |ts| ==> TableSays(ts[i], vs[i], parts, shared)
  }

  /** No column object occurs twice. */
  ghost predicate OwnColumns(ts: set<Table>)
    reads ts
  {
    && (forall t :: t in ts ==> Distinct(t.columns))
    && (forall t, u, c :: t in ts && u in ts && c in t.columns && c in u.columns ==> t == u)
  }

  ghost function TableSet(ts: seq<Table>): set<Table> {
    set t | t in ts
  }

  ghost predicate Tidy(ts: seq<Table>)
    reads ts
  {
    Distinct(ts) && OwnColumns(TableSet(ts))
  }

  /** The snapshot holds v, in objects that occur once. */
  ghost predicate Says(s: Snapshot, v: SnapshotV)
    reads s, s.repr, s.shared
  {
    && s in s.repr && s.repr !! s.shared && (forall t :: t in s.tables ==> t in s.repr)
    && s.generatedAt == v.generatedAt && s.hasSchema == v.schema.Some?
    && (v.schema.None? ==> s.tables == [])
    && (v.schema.Some? ==>
        s.head == v.schema.value.head && TablesSay(s.tables, v.schema.value.tables, s.repr, s.shared) && Tidy(s.tables))
  }

  // ------------------------------------------------------------------------ cloning

  lemma {:induction false} ChainSaysMore(e: Element?, vs: seq<ElementV>, shared: set<object>, shared': set<object>)
    requires ChainSays(e, vs, shared) && shared <= shared'
    ensures ChainSays(e, vs, shared')
    decreases |vs|
  {
    if vs != [] { ChainSaysMore(e.arrayOf, vs[1..], shared, shared'); }
  }

  lemma ElementsSayMore(c: Column, e: Element?, vs: seq<ElementV>, parts: set<object>, shared: set<object>,
                        parts': set<object>, shared': set<object>)
    requires ElementsSay(c, e, vs, parts, shared) && parts <= parts' && shared <= shared'
    ensures ElementsSay(c, e, vs, parts', shared')
  {
    if vs != [] { ChainSaysMore(e.arrayOf, vs[1..], shared, shared'); }
  }

  lemma ColumnSaysMore(c: Column, v: ColumnV, parts: set<object>, shared: set<object>, parts': set<object>,
                       shared': set<object>)
    requires ColumnSays(c, v, parts, shared) && parts <= parts' && shared <= shared'
    ensures ColumnSays(c, v, parts', shared')
  {
    ElementsSayMore(c, c.arrayOf, v.elements, parts, shared, parts', shared');
  }

  lemma ColumnsSayMore(cs: seq<Column>, vs: seq<ColumnV>, parts: set<object>, shared: set<object>, parts': set<object>,
                       shared': set<object>)
    requires ColumnsSay(cs, vs, parts, shared) && parts <= parts' && shared <= shared'
    ensures ColumnsSay(cs, vs, parts', shared')
  {
    forall i | 0 <= i < |cs| ensures ColumnSays(cs[i], vs[i], parts', shared') {
      ColumnSaysMore(cs[i], vs[i], parts, shared, parts', shared');
    }
  }

  /**
   * Both columns point to the same list of enum values, and so do their element types, with one map and one chain
   * below.
   */
  ghost predicate ColumnShares(a: Column, b: Column, partsA: set<object>, partsB: set<object>)
    reads partsA, partsB
  {
    && a in partsA && b in partsB && a.enumValues == b.enumValues && (a.arrayOf == null <==> b.arrayOf == null)
    && (a.arrayOf != null ==>
          && a.arrayOf in partsA && b.arrayOf in partsB && a.arrayOf.enumValues == b.arrayOf.enumValues
          && a.arrayOf.metadata == b.arrayOf.metadata && a.arrayOf.arrayOf == b.arrayOf.arrayOf)
  }

  ghost predicate ColumnsShare(a: seq<Column>, b: seq<Column>, partsA: set<object>, partsB: set<object>)
    reads partsA, partsB
  {
    |a| == |b| && forall j :: 0 <= j < |a| ==> ColumnShares(a[j], b[j], partsA, partsB)
  }

  /** One round of cloneColumns: the column and the element type it points to are copied, nothing further down is. */
  method CloneColumn(c: Column, ghost v: ColumnV, ghost parts: set<object>, ghost shared: set<object>)
    returns (cc: Column, ghost made: set<object>)
    requires ColumnSays(c, v, parts, shared)
    ensures fresh(made) && ColumnSays(cc, v, made, shared) && ColumnShares(cc, c, made, parts)
  {
    cc := new Column(c.def, c.enumValues);
    made := {cc};
    if c.arrayOf != null {
      var arr := new Element(c.arrayOf.def, c.arrayOf.enumValues, c.arrayOf.metadata, c.arrayOf.arrayOf, cc);
      cc.arrayOf := arr;
      made := {cc, arr};
    }
  }

  /** One more column, made of new objects, behind others. */
  lemma AppendColumn(cs: seq<Column>, vs: seq<ColumnV>, c: Column, v: ColumnV, parts: set<object>, made: set<object>,
                     shared: set<object>, shared': set<object>)
    requires ColumnsSay(cs, vs, parts, shared) && ColumnSays(c, v, made, shared') && parts !! made && Distinct(cs)
    ensures ColumnsSay(cs + [c], vs + [v], parts + made, shared + shared') && Distinct(cs + [c])
  {
    ColumnsSayMore(cs, vs, parts, shared, parts + made, shared + shared');
    ColumnSaysMore(c, v, made, shared', parts + made, shared + shared');
    forall i | 0 <= i < |cs| ensures cs[i] != c { assert ColumnSays(cs[i], vs[i], parts, shared); }
  }

  lemma ColumnsShareMore(a: seq<Column>, b: seq<Column>, partsA: set<object>, partsB: set<object>, partsA': set<object>)
    requires ColumnsShare(a, b, partsA, partsB) && partsA <= partsA'
    ensures ColumnsShare(a, b, partsA', partsB)
  {
    forall j | 0 <= j < |a|
      ensures ColumnShares(a[j], b[j], partsA', partsB)
    {
      assert ColumnShares(a[j], b[j], partsA, partsB);
    }
  }

  /** The first i columns are cloned. */
  ghost predicate ClonedColumns(out: seq<Column>, src: seq<Column>, vs: seq<ColumnV>, i: nat, made: set<object>,
                                parts: set<object>, shared: set<object>)
    requires i <= |src| == |vs|
    reads made, parts, shared
  {
    ColumnsSay(out, vs[..i], made, shared) && Distinct(out) && ColumnsShare(out, src[..i], made, parts)
  }

  lemma ClonedColumnsNext(out: seq<Column>, src: seq<Column>, vs: seq<ColumnV>, i: nat, c: Column, made: set<object>,
                          new_: set<object>,
                          parts: set<object>, shared: set<object>)
    requires i < |src| == |vs| && ClonedColumns(out, src, vs, i, made, parts, shared)
    requires ColumnSays(c, vs[i], new_, shared) && ColumnShares(c, src[i], new_, parts) && made !! new_
    ensures ClonedColumns(out + [c], src, vs, i + 1, made + new_, parts, shared)
  {
    AppendColumn(out, vs[..i], c, vs[i], made, new_, shared, shared);
    ColumnsShareMore(out, src[..i], made, parts, made + new_);
    assert vs[..i + 1] == vs[..i] + [vs[i]] && src[..i + 1] == src[..i] + [src[i]] && shared + shared == shared;
    assert ColumnShares(c, src[i], made + new_, parts);
  }

  method CloneColumns(src: seq<Column>, ghost vs: seq<ColumnV>, ghost parts: set<object>, ghost shared: set<object>)
    returns (out: seq<Column>, ghost made: set<object>)
    requires ColumnsSay(src, vs, parts, shared)
    ensures fresh(made) && ColumnsSay(out, vs, made, shared) && Distinct(out) && ColumnsShare(out, src, made, parts)
  {
    out, made := [], {};
    for i := 0 to |src|
      invariant fresh(made) && ClonedColumns(out, src, vs, i, made, parts, shared)
    {
      assert ColumnSays(src[i], vs[i], parts, shared);
      var cc, new_ := CloneColumn(src[i], vs[i], parts, shared);
      ClonedColumnsNext(out, src, vs, i, cc, made, new_, parts, shared);
      out, made := out + [cc], made + new_;
    }
    assert vs[..|src|] == vs && src[..|src|] == src;
  }

  lemma TablesSayMore(ts: seq<Table>, vs: seq<TableV>, parts: set<object>, shared: set<object>, parts': set<object>,
                      shared': set<object>)
    requires TablesSay(ts, vs, parts, shared) && parts <= parts' && shared <= shared'
    ensures TablesSay(ts, vs, parts', shared')
  {
    forall i | 0 <= i < |ts| ensures TableSays(ts[i], vs[i], parts', shared') {
      assert TableSays(ts[i], vs[i], parts, shared);
      ColumnsSayMore(ts[i].columns, vs[i].columns, parts, shared, parts', shared');
    }
  }

  /** One more table, made of new objects, behind others. */
  lemma AppendTable(ts: seq<Table>, vs: seq<TableV>, t: Table, v: TableV, parts: set<object>, made: set<object>,
                    shared: set<object>, shared': set<object>)
    requires TablesSay(ts, vs, parts, shared) && TableSays(t, v, made, shared') && parts !! made
    requires Tidy(ts) && Distinct(t.columns)
    ensures TablesSay(ts + [t], vs + [v], parts + made, shared + shared') && Tidy(ts + [t])
  {
    TablesSayMore(ts, vs, parts, shared, parts + made, shared + shared');
    ColumnsSayMore(t.columns, v.columns, made, shared', parts + made, shared + shared');
    assert TableSet(ts + [t]) == TableSet(ts) + {t};
    TablesWithin(ts, vs, parts, shared);
  }

  lemma TablesWithin(ts: seq<Table>, vs: seq<TableV>, parts: set<object>, shared: set<object>)
    requires TablesSay(ts, vs, parts, shared)
    ensures forall t :: t in ts ==> t in parts
    ensures forall t, c :: t in ts && c in t.columns ==> c in parts
  {
    forall t | t in ts ensures t in parts && forall c :: c in t.columns ==> c in parts {
      var i :| 0 <= i < |ts| && ts[i] == t;
      assert TableSays(ts[i], vs[i], parts, shared);
      forall c | c in t.columns ensures c in parts {
        var j :| 0 <= j < |t.columns| && t.columns[j] == c;
        assert ColumnSays(t.columns[j], vs[i].columns[j], parts, shared);
      }
    }
  }

  ghost predicate TablesShare(a: seq<Table>, b: seq<Table>, partsA: set<object>, partsB: set<object>)
    reads partsA, partsB
  {
    |a| == |b| && forall i :: 0 <= i < |a| ==> TableShares(a[i], b[i], partsA, partsB)
  }

  ghost predicate TableShares(a: Table, b: Table, partsA: set<object>, partsB: set<object>)
    reads partsA, partsB
  {
    a in partsA && b in partsB && ColumnsShare(a.columns, b.columns, partsA, partsB)
  }

  lemma TableSharesMore(a: Table, b: Table, partsA: set<object>, partsB: set<object>, partsA': set<object>)
    requires TableShares(a, b, partsA, partsB) && partsA <= partsA'
    ensures TableShares(a, b, partsA', partsB)
  {
    ColumnsShareMore(a.columns, b.columns, partsA, partsB, partsA');
  }

  lemma TablesShareMore(a: seq<Table>, b: seq<Table>, partsA: set<object>, partsB: set<object>, partsA': set<object>)
    requires TablesShare(a, b, partsA, partsB) && partsA <= partsA'
    ensures TablesShare(a, b, partsA', partsB)
  {
    forall i | 0 <= i < |a|
      ensures TableShares(a[i], b[i], partsA', partsB)
    {
      TableSharesMore(a[i], b[i], partsA, partsB, partsA');
    }
  }

  method CloneTable(t: Table, ghost v: TableV, ghost parts: set<object>, ghost shared: set<object>)
    returns (tt: Table, ghost made: set<object>)
    requires TableSays(t, v, parts, shared)
    ensures fresh(made) && TableSays(tt, v, made, shared) && Distinct(tt.columns) && TableShares(tt, t, made, parts)
  {
    var columns, cs := CloneColumns(t.columns, v.columns, parts, shared);
    tt := new Table(t.head, columns);
    made := cs + {tt};
    ColumnsSayMore(columns, v.columns, cs, shared, made, shared);
    ColumnsShareMore(columns, t.columns, cs, parts, made);
  }

  lemma AppendShares(a: seq<Table>, b: seq<Table>, t: Table, u: Table, partsA: set<object>, made: set<object>,
                     partsB: set<object>)
    requires TablesShare(a, b, partsA, partsB) && TableShares(t, u, made, partsB)
    ensures TablesShare(a + [t], b + [u], partsA + made, partsB)
  {
    TablesShareMore(a, b, partsA, partsB, partsA + made);
    TableSharesMore(t, u, made, partsB, partsA + made);
  }

  /** The first i tables are cloned. */
  ghost predicate Cloned(out: seq<Table>, src: seq<Table>, vs: seq<TableV>, i: nat, made: set<object>,
                         parts: set<object>, shared: set<object>)
    requires i <= |src| == |vs|
    reads out, made, parts, shared
  {
    TablesSay(out, vs[..i], made, shared) && Tidy(out) && TablesShare(out, src[..i], made, parts)
  }

  lemma ClonedNext(out: seq<Table>, src: seq<Table>, vs: seq<TableV>, i: nat, t: Table, made: set<object>,
                   new_: set<object>, parts: set<object>, shared: set<object>)
    requires i < |src| == |vs| && Cloned(out, src, vs, i, made, parts, shared)
    requires TableSays(t, vs[i], new_, shared) && Distinct(t.columns) && TableShares(t, src[i], new_, parts) &&
             made !! new_
    ensures Cloned(out + [t], src, vs, i + 1, made + new_, parts, shared)
  {
    AppendTable(out, vs[..i], t, vs[i], made, new_, shared, shared);
    AppendShares(out, src[..i], t, src[i], made, new_, parts);
    assert vs[..i + 1] == vs[..i] + [vs[i]] && src[..i + 1] == src[..i] + [src[i]] && shared + shared == shared;
  }

  method CloneTables(src: seq<Table>, ghost vs: seq<TableV>, ghost parts: set<object>, ghost shared: set<object>)
    returns (out: seq<Table>, ghost made: set<object>)
    requires TablesSay(src, vs, parts, shared)
    ensures fresh(made) && TablesSay(out, vs, made, shared) && Tidy(out) && TablesShare(out, src, made, parts)
  {
    out, made := [], {};
    for i := 0 to |src|
      invariant fresh(made) && Cloned(out, src, vs, i, made, parts, shared)
    {
      assert TableSays(src[i], vs[i], parts, shared);
      var tt, new_ := CloneTable(src[i], vs[i], parts, shared);
      ClonedNext(out, src, vs, i, tt, made, new_, parts, shared);
      out, made := out + [tt], made + new_;
    }
    assert vs[..|src|] == vs && src[..|src|] == src;
  }

  /** a is a copy of b: nothing in common but lists of enum values and what element types point to. */
  ghost predicate Shares(a: Snapshot, b: Snapshot)
    reads a, b, a.repr, b.repr
  {
    a.repr !! b.repr && a.shared == b.shared && TablesShare(a.tables, b.tables, a.repr, b.repr)
  }

  /** Snapshot.Clone. */
  method Clone(s: Snapshot, ghost v: SnapshotV) returns (out: Snapshot)
    requires Says(s, v)
    ensures Says(out, v) && fresh(out.repr) && Shares(out, s)
  {
    if !s.hasSchema {
      out := new Snapshot(s.generatedAt, false, s.head, [], {}, s.shared);
      return;
    }
    var tables, made := CloneTables(s.tables, v.schema.value.tables, s.repr, s.shared);
    out := new Snapshot(s.generatedAt, true, s.head, tables, made, s.shared);
    TablesSayMore(tables, v.schema.value.tables, made, s.shared, out.repr, s.shared);
    TablesWithin(tables, v.schema.value.tables, out.repr, s.shared);
    TablesShareMore(tables, s.tables, made, s.repr, out.repr);
  }

  // ---------------------------------------------------------------- sorting in place

  lemma OrderOfNames<T>(name: T -> string, a: T, b: T)
    ensures NameOrder(name)(a, b) <==> LessEq(name(a), name(b))
  {
  }

  method InsertColumn(s: seq<Column>, x: Column, ghost vs: seq<ColumnV>, ghost v: ColumnV, ghost parts: set<object>,
                      ghost shared: set<object>)
    returns (r: seq<Column>)
    requires ColumnsSay(s, vs, parts, shared) && ColumnsSay([x], [v], parts, shared)
    ensures ColumnsSay(r, InsertBy(vs, v, NameOrder(ColumnVName)), parts, shared) &&
            multiset(r) == multiset(s) + multiset{x}
  {
    assert ColumnSays([x][0], [v][0], parts, shared);
    if |s| == 0 { return [x]; }
    var n := |s| - 1;
    assert s == s[..n] + [s[n]];
    assert ColumnSays(s[n], vs[n], parts, shared);
    OrderOfNames(ColumnVName, vs[n], v);
    if LessEq(s[n].def.name, x.def.name) { return s + [x]; }
    r := InsertColumn(s[..n], x, vs[..n], v, parts, shared);
    r := r + [s[n]];
  }

  /** sort.SliceStable on column pointers. */
  method SortColumns(cs: seq<Column>, ghost vs: seq<ColumnV>, ghost parts: set<object>, ghost shared: set<object>)
    returns (r: seq<Column>)
    requires ColumnsSay(cs, vs, parts, shared)
    ensures ColumnsSay(r, SortByName(vs, ColumnVName), parts, shared) && multiset(r) == multiset(cs)
  {
    r := [];
    for i := 0 to |cs|
      invariant ColumnsSay(r, SortByName(vs[..i], ColumnVName), parts, shared) && multiset(r) == multiset(cs[..i])
    {
      assert vs[..i + 1][..i] == vs[..i] && cs[..i + 1] == cs[..i] + [cs[i]];
      assert ColumnSays(cs[i], vs[i], parts, shared);
      r := InsertColumn(r, cs[i], SortByName(vs[..i], ColumnVName), vs[i], parts, shared);
    }
    assert vs[..|cs|] == vs && cs[..|cs|] == cs;
  }

  method InsertTable(s: seq<Table>, x: Table, ghost vs: seq<TableV>, ghost v: TableV, ghost parts: set<object>,
                     ghost shared: set<object>)
    returns (r: seq<Table>)
    requires TablesSay(s, vs, parts, shared) && TableSays(x, v, parts, shared)
    ensures TablesSay(r, InsertBy(vs, v, NameOrder(TableVName)), parts, shared) &&
            multiset(r) == multiset(s) + multiset{x}
  {
    if |s| == 0 { return [x]; }
    var n := |s| - 1;
    assert s == s[..n] + [s[n]];
    assert TableSays(s[n], vs[n], parts, shared);
    OrderOfNames(TableVName, vs[n], v);
    if LessEq(s[n].head.name, x.head.name) { return s + [x]; }
    r := InsertTable(s[..n], x, vs[..n], v, parts, shared);
    r := r + [s[n]];
  }

  /** sort.SliceStable on table pointers. */
  method SortTables(ts: seq<Table>, ghost vs: seq<TableV>, ghost parts: set<object>, ghost shared: set<object>)
    returns (r: seq<Table>)
    requires TablesSay(ts, vs, parts, shared)
    ensures TablesSay(r, SortByName(vs, TableVName), parts, shared) && multiset(r) == multiset(ts)
  {
    r := [];
    for i := 0 to |ts|
      invariant TablesSay(r, SortByName(vs[..i], TableVName), parts, shared) && multiset(r) == multiset(ts[..i])
    {
      assert vs[..i + 1][..i] == vs[..i] && ts[..i + 1] == ts[..i] + [ts[i]];
      assert TableSays(ts[i], vs[i], parts, shared);
      r := InsertTable(r, ts[i], SortByName(vs[..i], TableVName), vs[i], parts, shared);
    }
    assert vs[..|ts|] == vs && ts[..|ts|] == ts;
  }

  lemma SameMultisetSameSet<T>(a: seq<T>, b: seq<T>)
    requires multiset(a) == multiset(b)
    ensures forall x :: x in a <==> x in b
  {
    forall x ensures x in a <==> x in b {
      assert x in a <==> x in multiset(a);
      assert x in b <==> x in multiset(b);
    }
  }

  lemma {:induction false} DistinctOccursOnce<T>(a: seq<T>, x: T)
    requires Distinct(a)
    ensures multiset(a)[x] <= 1
  {
    if a != [] {
      var n := |a| - 1;
      assert a == a[..n] + [a[n]];
      assert Distinct(a[..n]);
      DistinctOccursOnce(a[..n], x);
      if a[n] == x { assert x !in a[..n]; }
    }
  }

  lemma DistinctRearranged<T>(a: seq<T>, b: seq<T>)
    requires Distinct(a) && multiset(a) == multiset(b)
    ensures Distinct(b)
  {
    forall i, j | 0 <= i < j < |b| ensures b[i] != b[j] {
      DistinctOccursOnce(a, b[i]);
      assert b == b[..i] + [b[i]] + b[i + 1..j] + [b[j]] + b[j + 1..];
      assert b[i] == b[j] ==> multiset(b)[b[i]] >= 2;
    }
  }

  /** The table has the columns it had, possibly in another order. */
  twostate predicate Kept(t: Table)
    reads t
  {
    && (forall c :: c in t.columns ==> c in old(t.columns)) && (forall c :: c in old(t.columns) ==> c in t.columns)
    && (Distinct(old(t.columns)) ==> Distinct(t.columns))
  }

  method SetTable(t: Table, head: TableHead, columns: seq<Column>, ghost vs: seq<ColumnV>, ghost parts: set<object>,
                  ghost shared: set<object>)
    requires t in parts && t !in shared && ColumnsSay(columns, vs, parts, shared)
    modifies t
    ensures t.head == head && t.columns == columns && TableSays(t, TableV(head, vs), parts, shared)
  {
    t.head, t.columns := head, columns;
    forall i | 0 <= i < |columns| ensures ColumnSays(columns[i], vs[i], parts, shared) {
      assert old(ColumnSays(columns[i], vs[i], parts, shared));
    }
  }

  method SortTable(t: Table, ghost v: TableV, ghost parts: set<object>, ghost shared: set<object>)
    requires TableSays(t, v, parts, shared) && parts !! shared
    modifies t
    ensures TableSays(t, SortTableV(v), parts, shared) && Kept(t)
  {
    var columns := SortColumns(t.columns, v.columns, parts, shared);
    SameMultisetSameSet(columns, t.columns);
    if Distinct(t.columns) { DistinctRearranged(t.columns, columns); }
    SetTable(t, SortHead(t.head), columns, SortTableV(v).columns, parts, shared);
  }

  /** One round of the loop of Schema.Sort over the tables. */
  method SortAt(ts: seq<Table>, i: nat, ghost vs: seq<TableV>, ghost parts: set<object>, ghost shared: set<object>)
    requires i < |ts| && TablesSay(ts, vs, parts, shared) && Distinct(ts) && parts !! shared
    modifies ts[i]
    ensures TablesSay(ts, vs[i := SortTableV(vs[i])], parts, shared) && Kept(ts[i])
  {
    assert TableSays(ts[i], vs[i], parts, shared);
    assert forall k :: 0 <= k < |ts| && k != i ==> TableSays(ts[k], vs[k], parts, shared);
    SortTable(ts[i], vs[i], parts, shared);
    assert forall k :: 0 <= k < |ts| && k != i ==> TableSays(ts[k], vs[k], parts, shared);
  }

  /** The first i tables sorted. */
  ghost function Partly(vs: seq<TableV>, i: nat): (r: seq<TableV>)
    requires i <= |vs|
    ensures |r| == |vs|
  {
    SortEach(vs)[..i] + vs[i..]
  }

  lemma PartlyNext(vs: seq<TableV>, i: nat)
    requires i < |vs|
    ensures Partly(vs, i)[i] == vs[i] && Partly(vs, i)[i := SortTableV(vs[i])] == Partly(vs, i + 1)
  {
  }

  /** The loop of Schema.Sort over the tables. */
  method SortEachTable(ts: seq<Table>, ghost vs: seq<TableV>, ghost parts: set<object>, ghost shared: set<object>)
    requires TablesSay(ts, vs, parts, shared) && Distinct(ts) && parts !! shared
    modifies TableSet(ts)
    ensures TablesSay(ts, SortEach(vs), parts, shared) && forall t :: t in ts ==> Kept(t)
  {
    assert Partly(vs, 0) == vs;
    for i := 0 to |ts|
      invariant TablesSay(ts, Partly(vs, i), parts, shared)
      invariant forall k :: 0 <= k < i ==> Kept(ts[k])
      invariant forall k :: i <= k < |ts| ==> ts[k].columns == old(ts[k].columns)
    {
      PartlyNext(vs, i);
      SortAt(ts, i, Partly(vs, i), parts, shared);
    }
    assert Partly(vs, |vs|) == SortEach(vs);
  }

  /** The tables of Schema.Sort: first their order, then each of them. */
  method SortAll(ts: seq<Table>, ghost vs: seq<TableV>, ghost parts: set<object>, ghost shared: set<object>)
    returns (sorted: seq<Table>)
    requires TablesSay(ts, vs, parts, shared) && Tidy(ts) && parts !! shared
    modifies TableSet(ts)
    ensures TablesSay(sorted, SortEach(SortByName(vs, TableVName)), parts, shared) && Tidy(sorted) &&
            TableSet(sorted) == TableSet(ts)
  {
    sorted := SortTables(ts, vs, parts, shared);
    SameMultisetSameSet(sorted, ts);
    DistinctRearranged(ts, sorted);
    SortEachTable(sorted, SortByName(vs, TableVName), parts, shared);
  }

  method SetTables(s: Snapshot, head: SchemaHead, ts: seq<Table>, ghost vs: seq<TableV>)
    requires TablesSay(ts, vs, s.repr, s.shared) && Tidy(ts) && s !in s.shared
    modifies s`tables, s`head
    ensures s.tables == ts && s.head == head && TablesSay(ts, vs, s.repr, s.shared) && Tidy(ts)
  {
    s.tables, s.head := ts, head;
  }

  /** Schema.Sort. */
  method Sort(s: Snapshot, ghost v: SnapshotV)
    requires Says(s, v)
    modifies s`tables, s`head, TableSet(s.tables)
    ensures Says(s, Sorted(v)) && s.repr == old(s.repr) && s.shared == old(s.shared)
  {
    if !s.hasSchema { return; }
    var ts := SortAll(s.tables, v.schema.value.tables, s.repr, s.shared);
    assert forall t :: t in ts ==> t in TableSet(ts);
    SetTables(s, SortSchemaHead(s.head), ts, SortEach(SortByName(v.schema.value.tables, TableVName)));
  }

  // --------------------------------------------------------------------- validating

  method ValidateColumns(cs: seq<Column>, ghost vs: seq<ColumnV>, ghost parts: set<object>, ghost shared: set<object>)
    returns (ok: bool)
    requires ColumnsSay(cs, vs, parts, shared)
    ensures ok <==> ValidNames(vs, ColumnVName)
  {
    var names: set<string> := {};
    for i := 0 to |cs|
      invariant names == set k | 0 <= k < i :: vs[k].def.name
      invariant forall k :: 0 <= k < i ==> vs[k].def.name != ""
      invariant forall j, k :: 0 <= j < k < i ==> vs[j].def.name != vs[k].def.name
    {
      assert ColumnSays(cs[i], vs[i], parts, shared);
      if cs[i].def.name == "" { return false; }
      if cs[i].def.name in names { return false; }
      names := names + {cs[i].def.name};
    }
    ok := true;
  }

  /** Schema.Validate. */
  method Validate(ts: seq<Table>, ghost vs: seq<TableV>, ghost parts: set<object>, ghost shared: set<object>)
    returns (ok: bool)
    requires TablesSay(ts, vs, parts, shared)
    ensures ok <==> ValidTables(vs)
  {
    var names: set<string> := {};
    for i := 0 to |ts|
      invariant names == set k | 0 <= k < i :: vs[k].head.name
      invariant forall k :: 0 <= k < i ==> vs[k].head.name != "" && ValidNames(vs[k].columns, ColumnVName)
      invariant forall j, k :: 0 <= j < k < i ==> vs[j].head.name != vs[k].head.name
    {
      assert TableSays(ts[i], vs[i], parts, shared);
      if ts[i].head.name == "" { return false; }
      if ts[i].head.name in names { return false; }
      names := names + {ts[i].head.name};
      var columnsOk := ValidateColumns(ts[i].columns, vs[i].columns, parts, shared);
      if !columnsOk { return false; }
    }
    ok := true;
  }

  method ValidateSnapshot(s: Snapshot, ghost v: SnapshotV) returns (ok: bool)
    requires Says(s, v)
    ensures ok <==> ValidSnapshot(v)
  {
    if !s.hasSchema { return true; }
    ok := Validate(s.tables, v.schema.value.tables, s.repr, s.shared);
  }

  // --------------------------------------------- between JSON values and the objects

  method NewStrings(values: seq<string>) returns (a: array<string>)
    ensures fresh(a) && a[..] == values
  {
    a := new string[|values|](k requires 0 <= k < |values| => values[k]);
  }

  method BuildElement(v: ElementV, arrayOf: Element?, ghost owner: Column?)
    returns (e: Element, ghost shared: set<object>)
    ensures fresh(e) && fresh(shared) && e !in shared && ElementSays(e, v, shared) && e.arrayOf == arrayOf &&
            e.owner == owner
  {
    var values := NewStrings(v.enumValues);
    var metadata := new StringMap(v.metadata);
    e := new Element(v.def, values, metadata, arrayOf, owner);
    shared := {values, metadata};
  }

  method BuildChain(vs: seq<ElementV>) returns (e: Element?, ghost shared: set<object>)
    ensures fresh(shared) && ChainSays(e, vs, shared)
    decreases |vs|
  {
    if |vs| == 0 { return null, {}; }
    var inner, below := BuildChain(vs[1..]);
    ghost var own;
    e, own := BuildElement(vs[0], inner, null);
    shared := below + own + {e};
    ChainSaysMore(inner, vs[1..], below, shared);
  }

  /** A new chain of element types for a column. */
  method PointElements(c: Column, vs: seq<ElementV>) returns (ghost made: set<object>, ghost shared: set<object>)
    modifies c`arrayOf
    ensures fresh(made) && fresh(shared) && made !! shared && ElementsSay(c, c.arrayOf, vs, made, shared)
  {
    made, shared := {}, {};
    if |vs| == 0 {
      c.arrayOf := null;
      return;
    }
    var inner, below := BuildChain(vs[1..]);
    var e, own := BuildElement(vs[0], inner, c);
    c.arrayOf := e;
    made, shared := {e}, below + own;
    ChainSaysMore(inner, vs[1..], below, shared);
  }

  method BuildColumn(v: ColumnV) returns (c: Column, ghost made: set<object>, ghost shared: set<object>)
    ensures fresh(made) && fresh(shared) && made !! shared && ColumnSays(c, v, made, shared)
  {
    var values := NewStrings(v.enumValues);
    c := new Column(v.def, values);
    var ms, ss := PointElements(c, v.elements);
    made, shared := ms + {c}, ss + {values};
    ElementsSayMore(c, c.arrayOf, v.elements, ms, ss, made, shared);
  }

  method BuildColumns(vs: seq<ColumnV>) returns (out: seq<Column>, ghost made: set<object>, ghost shared: set<object>)
    ensures fresh(made) && fresh(shared) && made !! shared && ColumnsSay(out, vs, made, shared) && Distinct(out)
  {
    out, made, shared := [], {}, {};
    for i := 0 to |vs|
      invariant fresh(made) && fresh(shared) && made !! shared && ColumnsSay(out, vs[..i], made, shared) &&
        Distinct(out)
    {
      var column, new_, others := BuildColumn(vs[i]);
      AppendColumn(out, vs[..i], column, vs[i], made, new_, shared, others);
      assert vs[..i + 1] == vs[..i] + [vs[i]];
      out, made, shared := out + [column], made + new_, shared + others;
    }
    assert vs[..|vs|] == vs;
  }

  method BuildTable(v: TableV) returns (t: Table, ghost made: set<object>, ghost shared: set<object>)
    ensures fresh(made) && fresh(shared) && made !! shared && TableSays(t, v, made, shared) && Distinct(t.columns)
  {
    var columns, cs, others := BuildColumns(v.columns);
    t := new Table(v.head, columns);
    made, shared := cs + {t}, others;
    ColumnsSayMore(columns, v.columns, cs, others, made, shared);
  }

  method BuildTables(vs: seq<TableV>) returns (out: seq<Table>, ghost made: set<object>, ghost shared: set<object>)
    ensures fresh(made) && fresh(shared) && made !! shared && TablesSay(out, vs, made, shared) && Tidy(out)
  {
    out, made, shared := [], {}, {};
    for i := 0 to |vs|
      invariant fresh(made) && fresh(shared) && made !! shared && TablesSay(out, vs[..i], made, shared) && Tidy(out)
    {
      var table, new_, others := BuildTable(vs[i]);
      AppendTable(out, vs[..i], table, vs[i], made, new_, shared, others);
      assert vs[..i + 1] == vs[..i] + [vs[i]];
      out, made, shared := out + [table], made + new_, shared + others;
    }
    assert vs[..|vs|] == vs;
  }

  const NO_HEAD := SchemaHead("", 0, [], [])

  /** What json.Unmarshal builds from a parsed text. */
  method Build(v: SnapshotV) returns (s: Snapshot)
    ensures Says(s, v) && fresh(s.repr) && fresh(s.shared) && s.repr !! s.shared
  {
    if v.schema.None? {
      s := new Snapshot(v.generatedAt, false, NO_HEAD, [], {}, {});
      return;
    }
    var tables, made, shared := BuildTables(v.schema.value.tables);
    s := new Snapshot(v.generatedAt, true, v.schema.value.head, tables, made, shared);
    TablesSayMore(tables, v.schema.value.tables, made, shared, s.repr, shared);
    TablesWithin(tables, v.schema.value.tables, s.repr, shared);
  }

  /** Unmarshal and Sort. */
  method BuildSorted(v: SnapshotV) returns (s: Snapshot)
    ensures Says(s, Sorted(v)) && fresh(s.repr) && fresh(s.shared) && s.repr !! s.shared
  {
    s := Build(v);
    Sort(s, v);
  }

  method ReadChain(e: Element?, ghost vs: seq<ElementV>, ghost shared: set<object>) returns (out: seq<ElementV>)
    requires ChainSays(e, vs, shared)
    ensures out == vs
    decreases |vs|
  {
    if e == null { return []; }
    var rest := ReadChain(e.arrayOf, vs[1..], shared);
    out := [ElementV(e.def, e.enumValues[..], e.metadata.entries)] + rest;
  }

  method ReadColumn(c: Column, ghost v: ColumnV, ghost parts: set<object>, ghost shared: set<object>)
    returns (out: ColumnV)
    requires ColumnSays(c, v, parts, shared)
    ensures out == v
  {
    if c.arrayOf == null { return ColumnV(c.def, c.enumValues[..], []); }
    var rest := ReadChain(c.arrayOf.arrayOf, v.elements[1..], shared);
    out := ColumnV(c.def, c.enumValues[..], [ElementV(c.arrayOf.def, c.arrayOf.enumValues[..],
        c.arrayOf.metadata.entries)] + rest);
  }

  method ReadColumns(cs: seq<Column>, ghost vs: seq<ColumnV>, ghost parts: set<object>, ghost shared: set<object>)
    returns (out: seq<ColumnV>)
    requires ColumnsSay(cs, vs, parts, shared)
    ensures out == vs
  {
    out := [];
    for i := 0 to |cs|
      invariant out == vs[..i]
    {
      assert ColumnSays(cs[i], vs[i], parts, shared);
      var column := ReadColumn(cs[i], vs[i], parts, shared);
      out := out + [column];
    }
  }

  method ReadTables(ts: seq<Table>, ghost vs: seq<TableV>, ghost parts: set<object>, ghost shared: set<object>)
    returns (out: seq<TableV>)
    requires TablesSay(ts, vs, parts, shared)
    ensures out == vs
  {
    out := [];
    for i := 0 to |ts|
      invariant out == vs[..i]
    {
      assert TableSays(ts[i], vs[i], parts, shared);
      var columns := ReadColumns(ts[i].columns, vs[i].columns, parts, shared);
      out := out + [TableV(ts[i].head, columns)];
    }
  }

  /** What json.Marshal reads off the objects. */
  method Read(s: Snapshot, ghost v: SnapshotV) returns (out: SnapshotV)
    requires Says(s, v)
    ensures out == v
  {
    if !s.hasSchema { return SnapshotV(s.generatedAt, None); }
    var tables := ReadTables(s.tables, v.schema.value.tables, s.repr, s.shared);
    out := SnapshotV(s.generatedAt, Some(SchemaV(s.head, tables)));
  }
}
