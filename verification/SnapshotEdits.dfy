/** What callers do to the snapshots they hold: edits of their own objects, and writes to objects that copies share. */
module SnapshotEdits {
  import opened SnapshotHeap
  import opened Wrappers

  // ---------------------------------------------------------------- edits, as values

  /** Point gives the column new lists and a new chain; the others write to the element type the column points to. */
  datatype ColumnEdit =
    | SetDef(def: ColumnDef)
    | Point(enumValues: seq<string>, elements: seq<ElementV>)
    | SetElement(element: map<string, string>)
    | PointElement(values: seq<string>, metadata: map<string, string>, below: seq<ElementV>)

  datatype TableEdit =
    | SetHead(head: TableHead)
    | AddColumn(c: ColumnV)
    | DropColumn(j: nat)
    | OnColumn(j: nat, columnEdit: ColumnEdit)

  datatype Edit =
    | SetSchema(schemaHead: SchemaHead)
    | AddTable(t: TableV)
    | DropTable(i: nat)
    | OnTable(i: nat, tableEdit: TableEdit)

  function ColumnEdited(v: ColumnV, e: ColumnEdit): ColumnV {
    match e
    case SetDef(def) => v.(def := def)
    case Point(values, elements) => v.(enumValues := values, elements := elements)
    case SetElement(def) => if v.elements == [] then v
        else v.(elements := [v.elements[0].(def := def)] + v.elements[1..])
    case PointElement(values, metadata, below) =>
      if v.elements == [] then v else v.(elements := [ElementV(v.elements[0].def, values, metadata)] + below)
  }

  function Without<T>(s: seq<T>, i: nat): seq<T>
    requires i < |s|
  {
    s[..i] + s[i + 1..]
  }

  /** An edit at a place that is not there does nothing. */
  function TableEdited(v: TableV, e: TableEdit): TableV {
    match e
    case SetHead(head) => v.(head := head)
    case AddColumn(c) => v.(columns := v.columns + [c])
    case DropColumn(j) => if j < |v.columns| then v.(columns := Without(v.columns, j)) else v
    case OnColumn(j, ce) => if j < |v.columns| then v.(columns := v.columns[j := ColumnEdited(v.columns[j], ce)]) else v
  }

  function TablesEdited(vs: seq<TableV>, e: Edit): seq<TableV> {
    match e
    case SetSchema(_) => vs
    case AddTable(t) => vs + [t]
    case DropTable(i) => if i < |vs| then Without(vs, i) else vs
    case OnTable(i, te) => if i < |vs| then vs[i := TableEdited(vs[i], te)] else vs
  }

  function Edited(v: SnapshotV, e: Edit): SnapshotV {
    match v.schema
    case None => v
    case Some(schema) =>
      v.(schema := Some(SchemaV(if e.SetSchema? then e.schemaHead else schema.head, TablesEdited(schema.tables, e))))
  }

  // ------------------------------------------------------------------ edits, in place

  ghost function OwnElement(c: Column): set<Element>
    reads c
  {
    if c.arrayOf == null then {} else {c.arrayOf}
  }

  method EditColumn(c: Column, e: ColumnEdit, ghost v: ColumnV, ghost parts: set<object>, ghost shared: set<object>)
    returns (ghost made: set<object>, ghost more: set<object>)
    requires ColumnSays(c, v, parts, shared) && parts !! shared
    modifies c, OwnElement(c)
    ensures fresh(made) && fresh(more) && made !! more && ColumnSays(c, ColumnEdited(v, e), parts + made, shared + more)
  {
    made, more := {}, {};
    assert parts + {} == parts && shared + {} == shared;
    match e {
      case SetDef(def) => c.def := def;
      case Point(values, elements) => made, more := PointColumn(c, values, elements, v, parts, shared);
      case SetElement(def) =>
        if c.arrayOf != null { c.arrayOf.def := def; }
      case PointElement(values, metadata, below) =>
        if c.arrayOf != null { more := RepointElement(c.arrayOf, values, metadata, below, shared); }
    }
  }

  method PointColumn(c: Column, values: seq<string>, elements: seq<ElementV>, ghost v: ColumnV,
                     ghost parts: set<object>, ghost shared: set<object>)
    returns (ghost made: set<object>, ghost more: set<object>)
    requires ColumnSays(c, v, parts, shared) && parts !! shared
    modifies c
    ensures fresh(made) && fresh(more) && made !! more &&
            ColumnSays(c, ColumnV(v.def, values, elements), parts + made, shared + more)
  {
    var a := NewStrings(values);
    c.enumValues := a;
    ghost var below;
    made, below := PointElements(c, elements);
    more := below + {a};
    ElementsSayMore(c, c.arrayOf, elements, made, below, parts + made, shared + more);
  }

  method RepointElement(e: Element, values: seq<string>, metadata: map<string, string>, below: seq<ElementV>,
                        ghost shared: set<object>)
    returns (ghost more: set<object>)
    requires e !in shared
    modifies e
    ensures fresh(more) && e.def == old(e.def) && ElementSays(e, ElementV(e.def, values, metadata), shared + more)
    ensures ChainSays(e.arrayOf, below, shared + more)
  {
    var a := NewStrings(values);
    var m := new StringMap(metadata);
    var inner, chain := BuildChain(below);
    e.enumValues, e.metadata, e.arrayOf := a, m, inner;
    more := chain + {a, m};
    ChainSaysMore(inner, below, chain, shared + more);
  }

  /** The column stays as it is when something else is written. */
  lemma OthersColumn(c: Column, v: ColumnV, parts: set<object>, shared: set<object>, d: Column)
    requires ColumnSays(c, v, parts, shared) && c != d && (d.arrayOf != null ==> d.arrayOf.owner == d)
    ensures OwnElement(c) !! OwnElement(d)
  {
  }

  method EditColumnAt(t: Table, j: nat, e: ColumnEdit, ghost v: TableV, ghost parts: set<object>,
                      ghost shared: set<object>)
    returns (ghost made: set<object>, ghost more: set<object>)
    requires TableSays(t, v, parts, shared) && parts !! shared && Distinct(t.columns) && j < |t.columns|
    modifies t.columns[j], OwnElement(t.columns[j])
    ensures fresh(made) && fresh(more) && made !! more
    ensures TableSays(t, TableEdited(v, OnColumn(j, e)), parts + made, shared + more)
  {
    ghost var cs, vs := t.columns, v.columns;
    forall k | 0 <= k < |cs| && k != j ensures OwnElement(cs[k]) !! OwnElement(cs[j]) {
      assert ColumnSays(cs[k], vs[k], parts, shared) && ColumnSays(cs[j], vs[j], parts, shared);
      OthersColumn(cs[k], vs[k], parts, shared, cs[j]);
    }
    assert ColumnSays(cs[j], vs[j], parts, shared);
    made, more := EditColumn(t.columns[j], e, vs[j], parts, shared);
    forall k | 0 <= k < |cs| && k != j ensures ColumnSays(cs[k], vs[k], parts + made, shared + more) {
      assert old(ColumnSays(cs[k], vs[k], parts, shared));
      assert ColumnSays(cs[k], vs[k], parts, shared);
      ColumnSaysMore(cs[k], vs[k], parts, shared, parts + made, shared + more);
    }
  }

  lemma SaysWithout(cs: seq<Column>, vs: seq<ColumnV>, j: nat, parts: set<object>, shared: set<object>)
    requires ColumnsSay(cs, vs, parts, shared) && j < |cs|
    ensures ColumnsSay(Without(cs, j), Without(vs, j), parts, shared)
  {
    forall k | 0 <= k < |cs| - 1 ensures ColumnSays(Without(cs, j)[k], Without(vs, j)[k], parts, shared) {
      var at := if k < j then k else k + 1;
      assert ColumnSays(cs[at], vs[at], parts, shared);
    }
  }

  lemma DistinctWithout<T>(s: seq<T>, i: nat)
    requires Distinct(s) && i < |s|
    ensures Distinct(Without(s, i)) && (forall x :: x in Without(s, i) ==> x in s)
  {
  }

  ghost function Footprint(t: Table, e: TableEdit): set<object>
    reads t, t.columns
  {
    if e.OnColumn? && e.j < |t.columns| then {t.columns[e.j]} + OwnElement(t.columns[e.j]) else {t}
  }

  /** New columns are new objects. */
  twostate predicate Grown(t: Table)
    reads t
  {
    Distinct(t.columns) && forall c :: c in t.columns ==> c in old(t.columns) || fresh(c)
  }

  method AddColumnTo(t: Table, c: ColumnV, ghost v: TableV, ghost parts: set<object>, ghost shared: set<object>)
    returns (ghost made: set<object>, ghost more: set<object>)
    requires TableSays(t, v, parts, shared) && parts !! shared && Distinct(t.columns)
    modifies t
    ensures fresh(made) && fresh(more) && made !! more && Grown(t)
    ensures TableSays(t, TableEdited(v, AddColumn(c)), parts + made, shared + more)
  {
    var column;
    column, made, more := BuildColumn(c);
    AppendColumn(t.columns, v.columns, column, c, parts, made, shared, more);
    SetTable(t, t.head, t.columns + [column], v.columns + [c], parts + made, shared + more);
  }

  method EditTable(t: Table, e: TableEdit, ghost v: TableV, ghost parts: set<object>, ghost shared: set<object>)
    returns (ghost made: set<object>, ghost more: set<object>)
    requires TableSays(t, v, parts, shared) && parts !! shared && Distinct(t.columns)
    modifies Footprint(t, e)
    ensures fresh(made) && fresh(more) && made !! more && Grown(t)
    ensures TableSays(t, TableEdited(v, e), parts + made, shared + more)
  {
    made, more := {}, {};
    assert parts + {} == parts && shared + {} == shared;
    match e {
      case SetHead(head) => SetTable(t, head, t.columns, v.columns, parts, shared);
      case AddColumn(c) => made, more := AddColumnTo(t, c, v, parts, shared);
      case DropColumn(j) =>
        if j < |t.columns| {
          SaysWithout(t.columns, v.columns, j, parts, shared);
          DistinctWithout(t.columns, j);
          SetTable(t, t.head, Without(t.columns, j), Without(v.columns, j), parts, shared);
        }
      case OnColumn(j, ce) =>
        if j < |t.columns| { made, more := EditColumnAt(t, j, ce, v, parts, shared); }
    }
  }

  /** Nothing of another table is in the footprint of an edit. */
  lemma OthersTable(ts: seq<Table>, vs: seq<TableV>, i: nat, k: nat, e: TableEdit, parts: set<object>,
                    shared: set<object>)
    requires TablesSay(ts, vs, parts, shared) && Tidy(ts) && i < |ts| && k < |ts| && i != k
    ensures TableSays(ts[k], vs[k], parts - Footprint(ts[i], e), shared)
  {
    assert TableSays(ts[k], vs[k], parts, shared) && TableSays(ts[i], vs[i], parts, shared);
    assert ts[k] in TableSet(ts) && ts[i] in TableSet(ts);
    forall m | 0 <= m < |ts[k].columns|
      ensures ColumnSays(ts[k].columns[m], vs[k].columns[m], parts - Footprint(ts[i], e), shared)
    {
      var c := ts[k].columns[m];
      assert ColumnSays(c, vs[k].columns[m], parts, shared);
      if e.OnColumn? && e.j < |ts[i].columns| {
        assert ColumnSays(ts[i].columns[e.j], vs[i].columns[e.j], parts, shared);
        assert ts[i].columns[e.j] in ts[i].columns;
        OthersColumn(c, vs[k].columns[m], parts, shared, ts[i].columns[e.j]);
      }
    }
  }

  lemma FootprintOwn(t: Table, v: TableV, e: TableEdit, parts: set<object>, shared: set<object>)
    requires TableSays(t, v, parts, shared)
    ensures Footprint(t, e) <= parts
  {
    if e.OnColumn? && e.j < |t.columns| { assert ColumnSays(t.columns[e.j], v.columns[e.j], parts, shared); }
  }

  method EditTableAt(ts: seq<Table>, i: nat, e: TableEdit, ghost vs: seq<TableV>, ghost parts: set<object>,
                     ghost shared: set<object>)
    returns (ghost made: set<object>, ghost more: set<object>)
    requires TablesSay(ts, vs, parts, shared) && Tidy(ts) && parts !! shared && i < |ts|
    modifies Footprint(ts[i], e)
    ensures fresh(made) && fresh(more) && made !! more
    ensures TablesSay(ts, vs[i := TableEdited(vs[i], e)], parts + made, shared + more) && Tidy(ts)
  {
    assert TableSays(ts[i], vs[i], parts, shared) && ts[i] in TableSet(ts);
    ghost var rest := parts - Footprint(ts[i], e);
    FootprintOwn(ts[i], vs[i], e, parts, shared);
    forall k | 0 <= k < |ts| && k != i
      ensures TableSays(ts[k], vs[k], rest, shared)
    {
      OthersTable(ts, vs, i, k, e, parts, shared);
    }
    made, more := EditTable(ts[i], e, vs[i], parts, shared);
    forall k | 0 <= k < |ts| && k != i ensures TableSays(ts[k], vs[k], rest, shared) {
      assert old(TableSays(ts[k], vs[k], rest, shared));
    }
    OneTableEdited(ts, i, vs, TableEdited(vs[i], e), rest, shared, parts + made, shared + more);
  }

  lemma OneTableEdited(ts: seq<Table>, i: nat, vs: seq<TableV>, v: TableV, parts: set<object>, shared: set<object>,
                       parts': set<object>, shared': set<object>)
    requires |ts| == |vs| && i < |ts| && TableSays(ts[i], v, parts', shared') && parts <= parts' && shared <= shared'
    requires forall k :: 0 <= k < |ts| && k != i ==> TableSays(ts[k], vs[k], parts, shared)
    ensures TablesSay(ts, vs[i := v], parts', shared')
  {
    forall k | 0 <= k < |ts| && k != i ensures TableSays(ts[k], vs[k], parts', shared') {
      assert TableSays(ts[k], vs[k], parts, shared);
      ColumnsSayMore(ts[k].columns, vs[k].columns, parts, shared, parts', shared');
    }
  }

  lemma TablesSayWithout(ts: seq<Table>, vs: seq<TableV>, i: nat, parts: set<object>, shared: set<object>)
    requires TablesSay(ts, vs, parts, shared) && i < |ts| && Tidy(ts)
    ensures TablesSay(Without(ts, i), Without(vs, i), parts, shared) && Tidy(Without(ts, i))
  {
    forall k | 0 <= k < |ts| - 1 ensures TableSays(Without(ts, i)[k], Without(vs, i)[k], parts, shared) {
      var at := if k < i then k else k + 1;
      assert TableSays(ts[at], vs[at], parts, shared);
    }
    DistinctWithout(ts, i);
    assert forall t :: t in TableSet(Without(ts, i)) ==> t in TableSet(ts);
  }

  /** The snapshot's own fields, and the books of what it consists of. */
  method Update(s: Snapshot, head: SchemaHead, ts: seq<Table>, ghost vs: seq<TableV>, ghost made: set<object>,
                ghost more: set<object>)
    requires s in s.repr && s.repr + made !! s.shared + more && s.hasSchema
    requires TablesSay(ts, vs, s.repr + made, s.shared + more) && Tidy(ts)
    modifies s
    ensures s.repr == old(s.repr) + made && s.shared == old(s.shared) + more
    ensures Says(s, SnapshotV(old(s.generatedAt), Some(SchemaV(head, vs))))
  {
    ghost var parts, shared := s.repr + made, s.shared + more;
    TablesWithin(ts, vs, parts, shared);
    TablesSayLess(ts, vs, parts, shared, s);
    s.head, s.tables, s.repr, s.shared := head, ts, parts, shared;
    assert old(TablesSay(ts, vs, parts - {s}, shared));
    TablesSayMore(ts, vs, parts - {s}, shared, parts, shared);
  }

  /** A snapshot object is none of those its tables consist of. */
  lemma TablesSayLess(ts: seq<Table>, vs: seq<TableV>, parts: set<object>, shared: set<object>, s: Snapshot)
    requires TablesSay(ts, vs, parts, shared)
    ensures TablesSay(ts, vs, parts - {s}, shared)
  {
    forall k | 0 <= k < |ts| ensures TableSays(ts[k], vs[k], parts - {s}, shared) {
      assert TableSays(ts[k], vs[k], parts, shared);
      forall j | 0 <= j < |ts[k].columns| ensures ColumnSays(ts[k].columns[j], vs[k].columns[j], parts - {s}, shared) {
        assert ColumnSays(ts[k].columns[j], vs[k].columns[j], parts, shared);
      }
    }
  }

  method EditTables(s: Snapshot, e: Edit, ghost v: SnapshotV)
    returns (ts: seq<Table>, ghost made: set<object>, ghost more: set<object>)
    requires Says(s, v) && v.schema.Some?
    modifies s.repr - {s}
    ensures fresh(made) && fresh(more) && made !! more
    ensures TablesSay(ts, TablesEdited(v.schema.value.tables, e), s.repr + made, s.shared + more) && Tidy(ts)
  {
    ghost var vs := v.schema.value.tables;
    ts, made, more := s.tables, {}, {};
    assert s.repr + {} == s.repr && s.shared + {} == s.shared;
    match e {
      case SetSchema(_) =>
      case AddTable(t) =>
        var table;
        table, made, more := BuildTable(t);
        AppendTable(s.tables, vs, table, t, s.repr, made, s.shared, more);
        ts := s.tables + [table];
      case DropTable(i) =>
        if i < |ts| {
          TablesSayWithout(ts, vs, i, s.repr, s.shared);
          ts := Without(ts, i);
        }
      case OnTable(i, te) =>
        if i < |ts| {
          FootprintWithin(s, v, i, te);
          made, more := EditTableAt(ts, i, te, vs, s.repr, s.shared);
        }
    }
  }

  lemma FootprintWithin(s: Snapshot, v: SnapshotV, i: nat, e: TableEdit)
    requires Says(s, v) && v.schema.Some? && i < |s.tables|
    ensures Footprint(s.tables[i], e) <= s.repr - {s}
  {
    var t := v.schema.value.tables[i];
    assert TableSays(s.tables[i], t, s.repr, s.shared);
    if e.OnColumn? && e.j < |s.tables[i].columns| {
      assert ColumnSays(s.tables[i].columns[e.j], t.columns[e.j], s.repr, s.shared);
    }
  }

  /** Any edit of a snapshot by its holder: nothing is written but the snapshot's own objects. */
  method ApplyEdit(s: Snapshot, e: Edit, ghost v: SnapshotV)
    requires Says(s, v)
    modifies s.repr
    ensures Says(s, Edited(v, e))
    ensures old(s.repr) <= s.repr && fresh(s.repr - old(s.repr)) && old(s.shared) <= s.shared &&
            fresh(s.shared - old(s.shared))
  {
    if !s.hasSchema { return; }
    var ts, made, more := EditTables(s, e, v);
    var head := if e.SetSchema? then e.schemaHead else s.head;
    Update(s, head, ts, TablesEdited(v.schema.value.tables, e), made, more);
  }

  // ------------------------------------------------- writes to what copies have in common

  ghost predicate HasColumn(v: SnapshotV, i: nat, j: nat) {
    v.schema.Some? && i < |v.schema.value.tables| && j < |v.schema.value.tables[i].columns|
  }

  ghost function ColumnAt(v: SnapshotV, i: nat, j: nat): ColumnV
    requires HasColumn(v, i, j)
  {
    v.schema.value.tables[i].columns[j]
  }

  /** A snapshot and its copy have a column at the same places, and share what is below them. */
  lemma SharedColumn(s: Snapshot, copy: Snapshot, v: SnapshotV, i: nat, j: nat)
    requires Says(s, v) && Shares(copy, s) && HasColumn(v, i, j)
    ensures i < |s.tables| && j < |s.tables[i].columns| && i < |copy.tables| && j < |copy.tables[i].columns|
    ensures copy.tables[i] in copy.repr && s.tables[i] in s.repr
    ensures ColumnSays(s.tables[i].columns[j], ColumnAt(v, i, j), s.repr, s.shared)
    ensures ColumnShares(copy.tables[i].columns[j], s.tables[i].columns[j], copy.repr, s.repr)
  {
    assert TableSays(s.tables[i], v.schema.value.tables[i], s.repr, s.shared);
    assert TableShares(copy.tables[i], s.tables[i], copy.repr, s.repr);
  }

  /** A snapshot with a wrong column does not say v. */
  lemma WrongColumn(copy: Snapshot, v: SnapshotV, i: nat, j: nat)
    requires HasColumn(v, i, j) && i < |copy.tables| && j < |copy.tables[i].columns|
    requires !ColumnSays(copy.tables[i].columns[j], ColumnAt(v, i, j), copy.repr, copy.shared)
    ensures !Says(copy, v)
  {
    assert Says(copy, v) ==> TableSays(copy.tables[i], v.schema.value.tables[i], copy.repr, copy.shared);
  }

  /** An in-place write to a list of enum values shows in the copies. */
  method WriteEnum(s: Snapshot, copy: Snapshot, ghost v: SnapshotV, i: nat, j: nat, k: nat, x: string)
    requires Says(s, v) && Shares(copy, s) && HasColumn(v, i, j)
    requires k < |ColumnAt(v, i, j).enumValues| && ColumnAt(v, i, j).enumValues[k] != x
    modifies s.shared
    ensures !Says(copy, v)
  {
    SharedColumn(s, copy, v, i, j);
    var values := s.tables[i].columns[j].enumValues;
    values[k] := x;
    assert copy.tables[i].columns[j].enumValues[..][k] == x;
    WrongColumn(copy, v, i, j);
  }

  /** What can be written to an element type without reaching for its pointers. */
  datatype ElementWrite = WriteDef(def: map<string, string>) | WriteValue(k: nat, x: string) |
      WriteMetadata(entries: map<string, string>)

  predicate Changes(w: ElementWrite, v: ElementV) {
    match w
    case WriteDef(def) => def != v.def
    case WriteValue(k, x) => k < |v.enumValues| && v.enumValues[k] != x
    case WriteMetadata(entries) => entries != v.metadata
  }

  method WriteElement(e: Element, w: ElementWrite, ghost v: ElementV, ghost shared: set<object>)
    requires ElementSays(e, v, shared) && Changes(w, v)
    modifies if w.WriteDef? then {e} else {}, e.enumValues, e.metadata
    ensures !ElementSays(e, v, shared) && e.arrayOf == old(e.arrayOf)
    ensures !w.WriteDef? ==> e.enumValues == old(e.enumValues) && e.metadata == old(e.metadata)
  {
    match w {
      case WriteDef(def) => e.def := def;
      case WriteValue(k, x) =>
        e.enumValues[k] := x;
        assert e.enumValues[..][k] == x;
      case WriteMetadata(entries) => e.metadata.entries := entries;
    }
  }

  /** A write to element type number d of a chain. */
  method WriteBelow(e: Element?, d: nat, w: ElementWrite, ghost vs: seq<ElementV>, ghost shared: set<object>)
    requires ChainSays(e, vs, shared) && d < |vs| && Changes(w, vs[d])
    modifies shared
    ensures !ChainSays(e, vs, shared)
    ensures forall x: Element :: x in shared ==> x.arrayOf == old(x.arrayOf)
    decreases d
  {
    if d == 0 {
      WriteElement(e, w, vs[0], shared);
    } else {
      WriteBelow(e.arrayOf, d - 1, w, vs[1..], shared);
    }
  }

  /**
   * A write to an element type of a column, in any array type around it: the lists of enum values and the metadata of
   * the outermost one, and everything of those further in, show in the copies.
   */
  method WriteShared(s: Snapshot, copy: Snapshot, ghost v: SnapshotV, i: nat, j: nat, d: nat, w: ElementWrite)
    requires Says(s, v) && Says(copy, v) && Shares(copy, s) && HasColumn(v, i, j)
    requires d < |ColumnAt(v, i, j).elements| && Changes(w, ColumnAt(v, i, j).elements[d]) && (w.WriteDef? ==> d > 0)
    modifies s.shared
    ensures !Says(copy, v)
  {
    SharedColumn(s, copy, v, i, j);
    ghost var vs := ColumnAt(v, i, j).elements;
    var e := s.tables[i].columns[j].arrayOf;
    if d == 0 {
      WriteElement(e, w, vs[0], s.shared);
    } else {
      WriteBelow(e.arrayOf, d - 1, w, vs[1..], s.shared);
    }
    WrongColumn(copy, v, i, j);
  }
}
