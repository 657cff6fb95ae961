/** schema/types.go: schemas, their name maps, sorting, and the equalities schema/diff.go uses. */
module SchemaModel {
  import opened Text
  import opened Sorting

  datatype ColumnType = ColumnType(name: string, kind: string, nullable: bool)

  /** `other` holds what columnsEqual does not look at: Go name, lengths, audit flags, scope, tags. */
  datatype Column = Column(
    name: string, typ: ColumnType, nullable: bool, primaryKey: bool, unique: bool, identity: bool,
    default: string, generated: string, other: map<string, string>)

  datatype Index = Index(
    name: string, columns: seq<string>, unique: bool, expression: string, where_: string, method_: string,
    metadata: map<string, string>)

  datatype Constraint = Constraint(
    name: string, kind: string, columns: seq<string>, referencedTable: string, referencedColumns: seq<string>,
    onDelete: string, onUpdate: string, expression: string, metadata: map<string, string>)

  datatype Table = Table(
    name: string, columns: seq<Column>, indexes: seq<Index>, constraints: seq<Constraint>, other: map<string, string>)

  datatype Schema = Schema(name: string, tables: seq<Table>)

  function ColumnName(c: Column): string { c.name }
  function IndexName(i: Index): string { i.name }
  function ConstraintName(c: Constraint): string { c.name }
  function TableName(t: Table): string { t.name }

  // ------------------------------------------------------------------ equality

  /** fmt.Sprint of a sorted copy. */
  function JoinSorted(vals: seq<string>): string {
    "[" + Join(SortStrings(vals), " ") + "]"
  }

  predicate ColumnsEqual(a: Column, b: Column) {
    && a.name == b.name && a.typ.name == b.typ.name && a.typ.kind == b.typ.kind && a.typ.nullable == b.typ.nullable
    && a.nullable == b.nullable && a.primaryKey == b.primaryKey && a.unique == b.unique && a.identity == b.identity
    && a.default == b.default && a.generated == b.generated
  }

  predicate IndexesEqual(a: Index, b: Index) {
    && a.name == b.name && a.unique == b.unique && a.expression == b.expression && a.where_ == b.where_
    && a.method_ == b.method_ && JoinSorted(a.columns) == JoinSorted(b.columns)
  }

  predicate ConstraintsEqual(a: Constraint, b: Constraint) {
    && a.name == b.name && a.kind == b.kind && JoinSorted(a.columns) == JoinSorted(b.columns)
    && JoinSorted(a.referencedColumns) == JoinSorted(b.referencedColumns) && a.referencedTable == b.referencedTable
    && a.onDelete == b.onDelete && a.onUpdate == b.onUpdate && a.expression == b.expression
  }

  /** A column name joinSorted can tell apart from a list of names. */
  predicate Plain(name: string) {
    ' ' !in name
  }

  /** Where the first blank of a joined list is. */
  lemma FirstBlank(a: seq<string>)
    requires a != [] && forall x :: x in a ==> Plain(x)
    ensures |a[0]| <= |Join(a, " ")| && Join(a, " ")[..|a[0]|] == a[0]
    ensures |a| == 1 ==> Join(a, " ") == a[0]
    ensures |a| > 1 ==> Join(a, " ") == a[0] + " " + Join(a[1..], " ") && Join(a, " ")[|a[0]|] == ' '
  {
  }

  /** No plain first entry is longer than the other: it would contain the separator. */
  lemma FirstNotLonger(a: seq<string>, b: seq<string>)
    requires a != [] && b != [] && Join(a, " ") == Join(b, " ")
    requires forall x :: x in a ==> Plain(x)
    requires forall x :: x in b ==> Plain(x)
    ensures |b[0]| <= |a[0]|
  {
    var j := Join(a, " ");
    FirstBlank(b);
    assert Plain(b[0]);
    assert forall k :: 0 <= k < |b[0]| ==> j[k] == b[0][k] && b[0][k] in b[0];
    FirstBlank(a);
  }

  lemma {:induction false} JoinInjective(a: seq<string>, b: seq<string>)
    requires forall x :: x in a ==> Plain(x)
    requires forall x :: x in b ==> Plain(x)
    requires Join(a, " ") == Join(b, " ") && a != [] && b != []
    ensures a == b
  {
    var j := Join(a, " ");
    assert Plain(a[0]) && Plain(b[0]);
    FirstBlank(a);
    FirstBlank(b);
    FirstNotLonger(a, b);
    FirstNotLonger(b, a);
    if |a| > 1 {
      assert j[|a[0]| + 1..] == Join(a[1..], " ") && j[|b[0]| + 1..] == Join(b[1..], " ");
      JoinInjective(a[1..], b[1..]);
    }
    assert a == [a[0]] + a[1..] && b == [b[0]] + b[1..];
  }

  /** The one thing to mistake for an empty list. */
  lemma JoinsToNothing(a: seq<string>)
    requires a != [] && Join(a, " ") == "" && forall x :: x in a ==> Plain(x)
    ensures a == [""]
  {
    FirstBlank(a);
    assert a[0] == "";
  }

  /**
   * On column names without blanks joinSorted compares lists as multisets, but for the empty list and the list of an
   * empty name.
   */
  lemma JoinSortedIsMultiset(a: seq<string>, b: seq<string>)
    requires forall x :: x in a ==> Plain(x)
    requires forall x :: x in b ==> Plain(x)
    ensures JoinSorted(a) == JoinSorted(b) <==>
            multiset(a) == multiset(b) || (a == [] && b == [""]) || (a == [""] && b == [])
  {
    SortStringsSorts(a);
    SortStringsSorts(b);
    SortStringsCanonical(a, b);
    SortOfOne("");
    if JoinSorted(a) == JoinSorted(b) {
      assert JoinSorted(a)[1..|JoinSorted(a)| - 1] == Join(SortStrings(a), " ");
      assert JoinSorted(b)[1..|JoinSorted(b)| - 1] == Join(SortStrings(b), " ");
      if a == [] && b != [] {
        JoinsToNothing(SortStrings(b));
        OfOne(b);
      } else if a != [] && b == [] {
        JoinsToNothing(SortStrings(a));
        OfOne(a);
      } else if a != [] {
        JoinInjective(SortStrings(a), SortStrings(b));
      }
    }
  }

  /**
   * The same names in any order. Where a name holds a blank, whatever joinSorted makes of it.
   */
  ghost predicate SameNames(a: seq<string>, b: seq<string>) {
    if forall x :: x in a + b ==> Plain(x) then multiset(a) == multiset(b) || a + b == [""]
    else JoinSorted(a) == JoinSorted(b)
  }

  lemma SameNamesIff(a: seq<string>, b: seq<string>)
    ensures SameNames(a, b) <==> JoinSorted(a) == JoinSorted(b)
  {
    if forall x :: x in a + b ==> Plain(x) {
      forall x | x in a || x in b ensures Plain(x) { assert x in a + b; }
      JoinSortedIsMultiset(a, b);
      if a + b == [""] { assert a == [] || b == []; }
    }
  }

  /** The records agree but for what columnsEqual does not look at. */
  ghost predicate AlikeColumns(a: Column, b: Column) {
    a.(other := b.other) == b
  }

  /** The records agree but for their metadata and the order of their columns. */
  ghost predicate AlikeIndexes(a: Index, b: Index) {
    a.(columns := b.columns, metadata := b.metadata) == b && SameNames(a.columns, b.columns)
  }

  /** The records agree but for their metadata and the order of their columns on either side. */
  ghost predicate AlikeConstraints(a: Constraint, b: Constraint) {
    && a.(columns := b.columns, referencedColumns := b.referencedColumns, metadata := b.metadata) == b
    && SameNames(a.columns, b.columns) && SameNames(a.referencedColumns, b.referencedColumns)
  }

  /** The comparisons field by field are equality of records up to these differences. */
  lemma ColumnsEqualIff(a: Column, b: Column)
    ensures ColumnsEqual(a, b) <==> AlikeColumns(a, b)
  {
  }

  lemma IndexesEqualIff(a: Index, b: Index)
    ensures IndexesEqual(a, b) <==> AlikeIndexes(a, b)
  {
    SameNamesIff(a.columns, b.columns);
  }

  lemma ConstraintsEqualIff(a: Constraint, b: Constraint)
    ensures ConstraintsEqual(a, b) <==> AlikeConstraints(a, b)
  {
    SameNamesIff(a.columns, b.columns);
    SameNamesIff(a.referencedColumns, b.referencedColumns);
  }

  lemma OfOne(a: seq<string>)
    requires multiset(a) == multiset([""])
    ensures a == [""]
  {
    assert |a| == |multiset(a)| == 1;
    assert a[0] in multiset(a);
  }

  /** On other names it does not. */
  lemma JoinSortedConfusesBlanks()
    ensures JoinSorted(["a b"]) == JoinSorted(["a", "b"]) && multiset(["a b"]) != multiset(["a", "b"])
  {
    SortOfOne("a b");
    assert SortStrings(["a", "b"]) == ["a", "b"] by {
      LessAt("a", "b", 0);
      LessAsymmetric("a", "b");
      StableSortFixpoint(["a", "b"], StringOrder());
    }
    assert Join(["a", "b"], " ") == "a" + " " + Join(["b"], " ");
    assert "a b" in multiset(["a b"]) && "a b" !in ["a", "b"];
  }

  lemma SortOfOne(x: string)
    ensures SortStrings([x]) == [x]
  {
    StableSortFixpoint([x], StringOrder());
  }

  /** Schema.Validate on a list: its names are present and differ. */
  predicate ValidNames<T>(items: seq<T>, name: T -> string) {
    && (forall i :: 0 <= i < |items| ==> name(items[i]) != "")
    && (forall i, j :: 0 <= i < j < |items| ==> name(items[i]) != name(items[j]))
  }

  // ----------------------------------------------------------------- name maps

  /** The last element under each name. */
  function ByName<T>(items: seq<T>, name: T -> string): map<string, T> {
    if items == [] then map[] else ByName(items[..|items| - 1], name)[name(items[|items| - 1]) := items[|items| - 1]]
  }

  lemma {:induction false} ByNameEntries<T>(items: seq<T>, name: T -> string)
    ensures forall n :: n in ByName(items, name) ==>
            ByName(items, name)[n] in items && name(ByName(items, name)[n]) == n
    ensures forall i :: 0 <= i < |items| ==> name(items[i]) in ByName(items, name)
  {
    if items != [] {
      ByNameEntries(items[..|items| - 1], name);
    }
  }

  /** An entry no later one shares its name with is the one the map holds. */
  lemma {:induction false} ByNameIsLast<T>(items: seq<T>, name: T -> string, i: nat)
    requires i < |items| && forall j :: i < j < |items| ==> name(items[j]) != name(items[i])
    ensures name(items[i]) in ByName(items, name) && ByName(items, name)[name(items[i])] == items[i]
    decreases |items|
  {
    if i < |items| - 1 { ByNameIsLast(items[..|items| - 1], name, i); }
  }

  /** tableMap, columnMap, indexMap, constraintMap. */
  method NameMap<T>(items: seq<T>, name: T -> string) returns (out: map<string, T>)
    ensures out == ByName(items, name)
  {
    out := map[];
    for i := 0 to |items|
      invariant out == ByName(items[..i], name)
    {
      assert items[..i + 1][..i] == items[..i];
      out := out[name(items[i]) := items[i]];
    }
    assert items[..|items|] == items;
  }

  function NameOrder<T>(name: T -> string): (T, T) -> bool {
    (a: T, b: T) => LessEq(name(a), name(b))
  }

  lemma NameOrderTotal<T(!new)>(name: T -> string)
    ensures TotalPreorder(NameOrder(name))
  {
    StringOrderTotal();
    var le := NameOrder(name);
    forall x: T, y: T ensures le(x, y) || le(y, x) {
      assert StringOrder()(name(x), name(y)) || StringOrder()(name(y), name(x));
    }
    forall x: T, y: T, z: T | le(x, y) && le(y, z) ensures le(x, z) {
      LessEqTransitive(name(x), name(y), name(z));
    }
  }

  lemma {:induction false} ByNameInserted<T>(a: seq<T>, x: T, b: seq<T>, name: T -> string)
    requires forall i :: 0 <= i < |b| ==> name(b[i]) != name(x)
    ensures ByName(a + [x] + b, name) == ByName(a + b, name)[name(x) := x]
    decreases |b|
  {
    if b == [] {
      assert a + [x] + b == a + [x] && a + b == a && (a + [x])[..|a|] == a;
    } else {
      var n := |b| - 1;
      ByNameInserted(a, x, b[..n], name);
      assert (a + [x] + b)[..|a| + 1 + n] == a + [x] + b[..n];
      assert (a + b)[..|a| + n] == a + b[..n];
    }
  }

  /** Stable sorting by name keeps the name map, also when names repeat. */
  lemma {:induction false} SortKeepsNames<T(!new)>(items: seq<T>, name: T -> string)
    ensures ByName(StableSort(items, NameOrder(name)), name) == ByName(items, name)
  {
    if items != [] {
      var n := |items| - 1;
      SortKeepsNames(items[..n], name);
      InsertKeepsNames(StableSort(items[..n], NameOrder(name)), items[n], name);
    }
  }

  /** Insertion puts an element behind its namesakes. */
  lemma InsertKeepsNames<T(!new)>(s: seq<T>, x: T, name: T -> string)
    ensures ByName(InsertBy(s, x, NameOrder(name)), name) == ByName(s, name)[name(x) := x]
  {
    var k := InsertPosition(s, x, NameOrder(name));
    forall i | 0 <= i < |s[k..]| ensures name(s[k..][i]) != name(x) {
      assert !NameOrder(name)(s[k + i], x);
      LessIrreflexive(name(x));
    }
    ByNameInserted(s[..k], x, s[k..], name);
    assert s[..k] + s[k..] == s;
  }

  function SortByName<T>(items: seq<T>, name: T -> string): seq<T> {
    StableSort(items, NameOrder(name))
  }

  /** Schema.Sort on one table. */
  function SortTable(t: Table): Table {
    t.(columns := SortByName(t.columns, ColumnName), indexes := SortByName(t.indexes, IndexName),
       constraints := SortByName(t.constraints, ConstraintName))
  }

  function SortParts(tables: seq<Table>): (r: seq<Table>)
    ensures |r| == |tables|
  {
    seq(|tables|, i requires 0 <= i < |tables| => SortTable(tables[i]))
  }

  /** Schema.Sort. */
  function SortSchema(s: Schema): Schema {
    s.(tables := SortParts(SortByName(s.tables, TableName)))
  }

  // -------------------------------------------------- a schema as nested name maps

  datatype TableShape = TableShape(columns: map<string, Column>, indexes: map<string, Index>,
      constraints: map<string, Constraint>)
  type Catalog = map<string, TableShape>
  type Tables = map<string, Table>

  function ShapeOf(t: Table): TableShape {
    TableShape(ByName(t.columns, ColumnName), ByName(t.indexes, IndexName), ByName(t.constraints, ConstraintName))
  }

  function Shapes(ts: Tables): Catalog {
    map n | n in ts :: ShapeOf(ts[n])
  }

  function CatalogOf(s: Schema): Catalog {
    Shapes(ByName(s.tables, TableName))
  }

  lemma SortTableKeepsShape(t: Table)
    ensures ShapeOf(SortTable(t)) == ShapeOf(t)
  {
    SortKeepsNames(t.columns, ColumnName);
    SortKeepsNames(t.indexes, IndexName);
    SortKeepsNames(t.constraints, ConstraintName);
  }

  lemma {:induction false} SortPartsByName(tables: seq<Table>)
    ensures ByName(SortParts(tables), TableName).Keys == ByName(tables, TableName).Keys
    ensures forall n :: n in ByName(tables, TableName) ==>
            ByName(SortParts(tables), TableName)[n] == SortTable(ByName(tables, TableName)[n])
  {
    if tables != [] {
      var n := |tables| - 1;
      SortPartsByName(tables[..n]);
      assert SortParts(tables)[..n] == SortParts(tables[..n]);
    }
  }

  /** Sorting a schema does not change what it says. */
  lemma SortKeepsCatalog(s: Schema)
    ensures CatalogOf(SortSchema(s)) == CatalogOf(s)
  {
    var sorted := SortByName(s.tables, TableName);
    SortKeepsNames(s.tables, TableName);
    SortPartsByName(sorted);
    forall n | n in ByName(sorted, TableName)
      ensures ShapeOf(SortTable(ByName(sorted, TableName)[n])) == ShapeOf(ByName(sorted, TableName)[n])
    {
      SortTableKeepsShape(ByName(sorted, TableName)[n]);
    }
  }

  // ------------------------------------------------------ when input order is forgotten

  ghost predicate UniqueNames<T>(items: seq<T>, name: T -> string) {
    forall i, j :: 0 <= i < j < |items| ==> name(items[i]) != name(items[j])
  }

  /** The same elements under unique names, in any order. */
  ghost predicate Rearranged<T>(a: seq<T>, b: seq<T>, name: T -> string) {
    UniqueNames(a, name) && UniqueNames(b, name) && multiset(a) == multiset(b)
  }

  ghost predicate RearrangedTable(a: Table, b: Table) {
    && a.name == b.name && a.other == b.other && Rearranged(a.columns, b.columns, ColumnName)
    && Rearranged(a.indexes, b.indexes, IndexName) && Rearranged(a.constraints, b.constraints, ConstraintName)
  }

  ghost predicate HasTwin(t: Table, tables: seq<Table>) {
    exists u :: u in tables && RearrangedTable(t, u)
  }

  ghost predicate AllHaveTwins(a: seq<Table>, b: seq<Table>) {
    forall t :: t in a ==> HasTwin(t, b)
  }

  ghost predicate RearrangedSchema(a: Schema, b: Schema) {
    && a.name == b.name && UniqueNames(a.tables, TableName) && UniqueNames(b.tables, TableName)
    && AllHaveTwins(a.tables, b.tables) && AllHaveTwins(b.tables, a.tables)
  }

  lemma SortForgetsOrder<T(!new)>(a: seq<T>, b: seq<T>, name: T -> string)
    requires Rearranged(a, b, name)
    ensures SortByName(a, name) == SortByName(b, name)
  {
    var le := NameOrder(name);
    NameOrderTotal(name);
    StableSortSorts(a, le);
    StableSortSorts(b, le);
    var sa := StableSort(a, le);
    forall x, y | x in sa && y in sa && le(x, y) && le(y, x) ensures x == y {
      LessTotal(name(x), name(y));
      assert x in multiset(a) && y in multiset(a);
      var i :| 0 <= i < |a| && a[i] == x;
      var j :| 0 <= j < |a| && a[j] == y;
    }
    SortedUnique(sa, StableSort(b, le), le);
  }

  lemma SortTableForgetsOrder(a: Table, b: Table)
    requires RearrangedTable(a, b)
    ensures SortTable(a) == SortTable(b)
  {
    SortForgetsOrder(a.columns, b.columns, ColumnName);
    SortForgetsOrder(a.indexes, b.indexes, IndexName);
    SortForgetsOrder(a.constraints, b.constraints, ConstraintName);
  }

  /** What SortSchema leaves of a list of tables, member by member. */
  lemma SortedTablesAscend(s: Schema)
    requires UniqueNames(s.tables, TableName)
    ensures var r := SortSchema(s).tables;
            && (forall i, j :: 0 <= i < j < |r| ==> Less(r[i].name, r[j].name))
            && (forall x :: x in r <==> exists t :: t in s.tables && x == SortTable(t))
  {
    var le := NameOrder(TableName);
    NameOrderTotal(TableName);
    StableSortSorts(s.tables, le);
    var sorted := StableSort(s.tables, le);
    var r := SortSchema(s).tables;
    SortedNamesUnique(s.tables, sorted, TableName);
    forall i, j | 0 <= i < j < |r| ensures Less(r[i].name, r[j].name) {
      assert le(sorted[i], sorted[j]) && TableName(sorted[i]) != TableName(sorted[j]);
      LessTotal(r[i].name, r[j].name);
    }
    forall x ensures x in r <==> exists t :: t in s.tables && x == SortTable(t) {
      if x in r {
        var i :| 0 <= i < |r| && r[i] == x;
        assert sorted[i] in multiset(s.tables);
      }
      if t :| t in s.tables && x == SortTable(t) {
        assert t in multiset(sorted);
        var i :| 0 <= i < |sorted| && sorted[i] == t;
        assert r[i] == x;
      }
    }
  }

  lemma SortedNamesUnique<T>(a: seq<T>, b: seq<T>, name: T -> string)
    requires UniqueNames(a, name) && multiset(a) == multiset(b)
    ensures UniqueNames(b, name)
  {
    forall i, j | 0 <= i < j < |b| ensures name(b[i]) != name(b[j]) {
      if name(b[i]) == name(b[j]) {
        assert b[i] in multiset(a) && b[j] in multiset(a);
        var k :| 0 <= k < |a| && a[k] == b[i];
        var m :| 0 <= m < |a| && a[m] == b[j];
        assert b[i] == b[j];
        assert b == b[..i] + [b[i]] + b[i + 1..j] + [b[j]] + b[j + 1..];
        assert multiset(b)[b[i]] >= 2;
        OnceOnly(a, name, b[i]);
      }
    }
  }

  lemma {:induction false} OnceOnly<T>(a: seq<T>, name: T -> string, x: T)
    requires UniqueNames(a, name)
    ensures multiset(a)[x] <= 1
  {
    if a != [] {
      var n := |a| - 1;
      OnceOnly(a[..n], name, x);
      assert a == a[..n] + [a[n]];
      if a[n] == x { assert x !in a[..n]; }
    }
  }

  /** Schema.Sort gives the same schema for every input order of tables, columns, indexes and constraints. */
  lemma SortSchemaForgetsOrder(a: Schema, b: Schema)
    requires RearrangedSchema(a, b)
    ensures SortSchema(a) == SortSchema(b)
  {
    SortedTablesAscend(a);
    SortedTablesAscend(b);
    var ra, rb := SortSchema(a).tables, SortSchema(b).tables;
    forall x ensures x in ra <==> x in rb {
      if x in ra { SortedMemberAcross(a, b, x); }
      if x in rb { SortedMemberAcross(b, a, x); }
    }
    assert TablesAscend(ra) by { SortedTablesAscend(a); }
    assert TablesAscend(rb) by { SortedTablesAscend(b); }
    TablesAscendUnique(ra, rb);
  }

  lemma SortedMemberOf(s: Schema, x: Table) returns (t: Table)
    requires UniqueNames(s.tables, TableName) && x in SortSchema(s).tables
    ensures t in s.tables && x == SortTable(t)
  {
    SortedTablesAscend(s);
    t :| t in s.tables && x == SortTable(t);
  }

  lemma SortedMemberFrom(s: Schema, t: Table)
    requires UniqueNames(s.tables, TableName) && t in s.tables
    ensures SortTable(t) in SortSchema(s).tables
  {
    SortedTablesAscend(s);
  }

  lemma SortedMemberAcross(a: Schema, b: Schema, x: Table)
    requires UniqueNames(a.tables, TableName) && UniqueNames(b.tables, TableName) && AllHaveTwins(a.tables, b.tables)
    requires x in SortSchema(a).tables
    ensures x in SortSchema(b).tables
  {
    var t := SortedMemberOf(a, x);
    assert HasTwin(t, b.tables);
    var u :| u in b.tables && RearrangedTable(t, u);
    SortTableForgetsOrder(t, u);
    SortedMemberFrom(b, u);
  }

  /** The sorted table lists ascend strictly by name. */
  predicate TablesAscend(r: seq<Table>) {
    forall i, j :: 0 <= i < j < |r| ==> Less(r[i].name, r[j].name)
  }

  lemma TablesAscendUnique(a: seq<Table>, b: seq<Table>)
    requires TablesAscend(a) && TablesAscend(b) && forall x :: x in a <==> x in b
    ensures a == b
  {
    var lt := (x: Table, y: Table) => Less(x.name, y.name);
    forall x, y | lt(x, y) ensures !lt(y, x) { LessAsymmetric(x.name, y.name); }
    AscendingUnique(a, b, lt);
  }
}
