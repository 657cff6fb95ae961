/** schema/diff.go: the operation list between two schemas. */
module SchemaDiff {
  import opened Text
  import opened Sorting
  import opened SchemaModel
  import opened Wrappers

  datatype SchemaError = InvalidSchema

  datatype Operation =
    | CreateTable(table: string, def: Table)
    | DropTable(table: string, dropped: Option<Table>)
    | AddColumn(table: string, column: Column)
    | DropColumn(table: string, column: Column)
    | AlterColumn(table: string, column: Column, previous: Column)
    | CreateIndex(table: string, index: Index)
    | DropIndex(table: string, index: Index)
    | CreateConstraint(table: string, con: Constraint)
    | DropConstraint(table: string, con: Constraint)

  function Kind(op: Operation): string {
    match op
    case CreateTable(_, _) => "create_table"
    case DropTable(_, _) => "drop_table"
    case AddColumn(_, _) => "add_column"
    case DropColumn(_, _) => "drop_column"
    case AlterColumn(_, _, _) => "alter_column"
    case CreateIndex(_, _) => "create_index"
    case DropIndex(_, _) => "drop_index"
    case CreateConstraint(_, _) => "create_constraint"
    case DropConstraint(_, _) => "drop_constraint"
  }

  /** The name of the column, index or constraint an operation is about. */
  function ObjectName(op: Operation): string {
    match op
    case CreateTable(_, _) => ""
    case DropTable(_, _) => ""
    case AddColumn(_, c) => c.name
    case DropColumn(_, c) => c.name
    case AlterColumn(_, c, _) => c.name
    case CreateIndex(_, i) => i.name
    case DropIndex(_, i) => i.name
    case CreateConstraint(_, c) => c.name
    case DropConstraint(_, c) => c.name
  }

  // ----------------------------------------------------- what a diff has to contain

  predicate NeededColumn(op: Operation, e: map<string, Column>, a: map<string, Column>) {
    match op
    case AddColumn(_, c) => c.name in e && c.name !in a && e[c.name] == c
    case AlterColumn(_, c, p) => c.name in e && c.name in a && e[c.name] == c && a[c.name] == p && !ColumnsEqual(c, p)
    case DropColumn(_, c) => c.name in a && c.name !in e && a[c.name] == c
    case _ => false
  }

  predicate NeededIndex(op: Operation, e: map<string, Index>, a: map<string, Index>) {
    match op
    case CreateIndex(_, i) => i.name in e && e[i.name] == i && (i.name in a ==> !IndexesEqual(i, a[i.name]))
    case DropIndex(_, i) => i.name in a && i.name !in e && a[i.name] == i
    case _ => false
  }

  predicate NeededConstraint(op: Operation, e: map<string, Constraint>, a: map<string, Constraint>) {
    match op
    case CreateConstraint(_, c) => c.name in e && e[c.name] == c && (c.name in a ==> !ConstraintsEqual(c, a[c.name]))
    case DropConstraint(_, c) => c.name in a && c.name !in e && a[c.name] == c
    case _ => false
  }

  /** Operations on one table that both schemas have. */
  predicate NeededInTable(op: Operation, e: TableShape, a: TableShape) {
    || NeededColumn(op, e.columns, a.columns) || NeededIndex(op, e.indexes, a.indexes)
    || NeededConstraint(op, e.constraints, a.constraints)
  }

  /** op is part of the difference between what is expected and what is there. */
  predicate Needed(op: Operation, e: Tables, a: Tables) {
    match op
    case CreateTable(t, def) => t in e && t !in a && def == e[t]
    case DropTable(t, dropped) => t in a && t !in e && dropped == Some(a[t])
    case _ => op.table in e && op.table in a && NeededInTable(op, ShapeOf(e[op.table]), ShapeOf(a[op.table]))
  }

  /** The place of an operation's kind string among the nine, in string order. */
  function KindRank(op: Operation): nat {
    match op
    case AddColumn(_, _) => 0
    case AlterColumn(_, _, _) => 1
    case CreateConstraint(_, _) => 2
    case CreateIndex(_, _) => 3
    case CreateTable(_, _) => 4
    case DropColumn(_, _) => 5
    case DropConstraint(_, _) => 6
    case DropIndex(_, _) => 7
    case DropTable(_, _) => 8
  }

  function RankedKind(r: nat): string
    requires r < 9
  {
    ["add_column", "alter_column", "create_constraint", "create_index", "create_table",
     "drop_column", "drop_constraint", "drop_index", "drop_table"][r]
  }

  lemma {:induction false} RankedKindsAscend(i: nat, j: nat)
    requires i < j < 9
    ensures Less(RankedKind(i), RankedKind(j))
    decreases j - i
  {
    if i + 1 < j {
      RankedKindsAscend(i, j - 1);
      RankedKindsAscend(j - 1, j);
      LessTransitive(RankedKind(i), RankedKind(j - 1), RankedKind(j));
    } else {
      var at := [1, 0, 7, 7, 0, 7, 5, 5];
      LessAt(RankedKind(i), RankedKind(j), at[i]);
    }
  }

  /** Comparing kind strings is comparing ranks. */
  lemma KindsByRank(x: Operation, y: Operation)
    ensures LessEq(Kind(x), Kind(y)) <==> KindRank(x) <= KindRank(y)
  {
    assert Kind(x) == RankedKind(KindRank(x)) && Kind(y) == RankedKind(KindRank(y));
    if KindRank(x) < KindRank(y) {
      RankedKindsAscend(KindRank(x), KindRank(y));
      LessAsymmetric(Kind(x), Kind(y));
    } else if KindRank(y) < KindRank(x) {
      RankedKindsAscend(KindRank(y), KindRank(x));
    } else {
      LessIrreflexive(Kind(x));
    }
  }

  /** Strictly ascending by table, then kind string, then object name. */
  predicate OpLess(x: Operation, y: Operation) {
    Less(x.table, y.table) || (x.table == y.table && RankLess(x, y))
  }

  predicate RankLess(x: Operation, y: Operation) {
    KindRank(x) < KindRank(y) || (KindRank(x) == KindRank(y) && Less(ObjectName(x), ObjectName(y)))
  }

  predicate Ascending(ops: seq<Operation>) {
    forall i, j :: 0 <= i < j < |ops| ==> OpLess(ops[i], ops[j])
  }

  ghost predicate IsDiff(ops: seq<Operation>, e: Tables, a: Tables) {
    Ascending(ops) && forall op :: op in ops <==> Needed(op, e, a)
  }

  lemma OpLessAsymmetric(x: Operation, y: Operation)
    requires OpLess(x, y)
    ensures !OpLess(y, x)
  {
    if Less(x.table, y.table) {
      LessAsymmetric(x.table, y.table);
      LessIrreflexive(x.table);
    } else if Less(ObjectName(x), ObjectName(y)) {
      LessAsymmetric(ObjectName(x), ObjectName(y));
    }
  }

  /** There is only one such list. */
  lemma DiffUnique(p: seq<Operation>, q: seq<Operation>, e: Tables, a: Tables)
    requires IsDiff(p, e, a) && IsDiff(q, e, a)
    ensures p == q
  {
    var lt := (x: Operation, y: Operation) => OpLess(x, y);
    forall x, y | lt(x, y) ensures !lt(y, x) { OpLessAsymmetric(x, y); }
    AscendingUnique(p, q, lt);
  }

  // --------------------------------------------------------- sorting by table and kind

  /** The comparison Compare hands to sort.SliceStable. */
  predicate OpOrder(x: Operation, y: Operation) {
    if x.table == y.table then LessEq(Kind(x), Kind(y)) else LessEq(x.table, y.table)
  }

  /** Before sorting: where table and kind agree, names ascend. */
  predicate Grouped(ops: seq<Operation>) {
    forall i, j :: 0 <= i < j < |ops| ==> InStep(ops[i], ops[j])
  }

  predicate InStep(x: Operation, y: Operation) {
    x.table == y.table && KindRank(x) == KindRank(y) ==> Less(ObjectName(x), ObjectName(y))
  }

  lemma OrderSteps(x: Operation, y: Operation)
    ensures OpOrder(x, y) && InStep(x, y) ==> OpLess(x, y)
    ensures !OpOrder(x, y) ==> OpLess(y, x)
    ensures OpLess(x, y) ==> OpOrder(x, y)
  {
    if x.table == y.table {
      KindsByRank(x, y);
      LessIrreflexive(x.table);
    } else {
      LessTotal(x.table, y.table);
      if Less(x.table, y.table) { LessAsymmetric(x.table, y.table); }
    }
  }

  lemma OpOrderTransitive(x: Operation, y: Operation, z: Operation)
    requires OpOrder(x, y) && OpOrder(y, z)
    ensures OpOrder(x, z)
  {
    LessTotal(x.table, y.table);
    LessTotal(y.table, z.table);
    if x.table == y.table == z.table {
      LessEqTransitive(Kind(x), Kind(y), Kind(z));
    } else if x.table != y.table && y.table != z.table {
      LessTransitive(x.table, y.table, z.table);
      LessAsymmetric(x.table, z.table);
      LessIrreflexive(x.table);
    }
  }

  function OpSort(ops: seq<Operation>): seq<Operation> {
    StableSort(ops, OpOrder)
  }

  lemma InStepWithLast(ops: seq<Operation>, op: Operation)
    requires Grouped(ops) && ops != [] && op in ops[..|ops| - 1]
    ensures InStep(op, ops[|ops| - 1])
  {
    var n := |ops| - 1;
    var m :| 0 <= m < n && ops[m] == op;
    assert InStep(ops[m], ops[n]);
  }

  lemma {:induction false} SortedGrouped(ops: seq<Operation>)
    requires Grouped(ops)
    ensures Ascending(OpSort(ops)) && forall op :: op in OpSort(ops) <==> op in ops
  {
    SortMembers(ops, OpOrder);
    if ops != [] {
      var n := |ops| - 1;
      SortedGrouped(ops[..n]);
      var s, x := OpSort(ops[..n]), ops[n];
      var k := InsertPosition(s, x, OpOrder);
      forall i | 0 <= i < |s| ensures if i < k then OpLess(s[i], x) else OpLess(x, s[i]) {
        InStepWithLast(ops, s[i]);
        PlaceOfInserted(s, x, k, i);
      }
      InsertedAscending(s, x, k);
    }
  }

  lemma PlaceOfInserted(s: seq<Operation>, x: Operation, k: nat, i: nat)
    requires Ascending(s) && i < |s| && k <= |s| && InStep(s[i], x)
    requires k > 0 ==> OpOrder(s[k - 1], x)
    requires k <= i ==> !OpOrder(s[i], x)
    ensures if i < k then OpLess(s[i], x) else OpLess(x, s[i])
  {
    OrderSteps(s[i], x);
    if i + 1 < k {
      OrderSteps(s[i], s[k - 1]);
      OpOrderTransitive(s[i], s[k - 1], x);
    }
  }

  lemma InsertedAscending(s: seq<Operation>, x: Operation, k: nat)
    requires Ascending(s) && k <= |s|
    requires forall i :: 0 <= i < |s| ==> if i < k then OpLess(s[i], x) else OpLess(x, s[i])
    ensures Ascending(s[..k] + [x] + s[k..])
    ensures forall op :: op in s[..k] + [x] + s[k..] <==> op in s || op == x
  {
    var r := s[..k] + [x] + s[k..];
    assert s == s[..k] + s[k..];
    forall i, j | 0 <= i < j < |r| ensures OpLess(r[i], r[j]) {
      assert j < k ==> OpLess(s[i], s[j]);
      assert k < i ==> OpLess(s[i - 1], s[j - 1]);
      assert i < k < j ==> OpLess(s[i], s[j - 1]);
    }
  }

  lemma GroupedAppend(p: seq<Operation>, q: seq<Operation>)
    requires Grouped(p) && Grouped(q)
    requires forall x, y :: x in p && y in q ==> Apart(x, y)
    ensures Grouped(p + q)
  {
    forall i, j | 0 <= i < j < |p + q| ensures InStep((p + q)[i], (p + q)[j]) {
      if i < |p| <= j { assert Apart(p[i], q[j - |p|]); }
      else if j < |p| { assert InStep(p[i], p[j]); }
      else { assert InStep(q[i - |p|], q[j - |p|]); }
    }
  }

  predicate Apart(x: Operation, y: Operation) {
    x.table != y.table || KindRank(x) != KindRank(y)
  }

  // ------------------------------------------------------------------- the algorithm

  /** sortedKeys of a map. */
  method SortedKeys<T>(m: map<string, T>) returns (keys: seq<string>)
    ensures AscendingStrings(keys) && forall k :: k in keys <==> k in m
  {
    keys := [];
    var todo := m.Keys;
    while todo != {}
      invariant todo <= m.Keys && (forall k :: k in keys <==> k in m && k !in todo)
      invariant forall i, j :: 0 <= i < j < |keys| ==> keys[i] != keys[j]
      decreases todo
    {
      var k :| k in todo;
      keys := keys + [k];
      todo := todo - {k};
    }
    ghost var raw := keys;
    keys := SortStrings(keys);
    SortStringsSorts(raw);
    StringOrderTotal();
    SortedNamesUnique(raw, keys, (s: string) => s);
    forall i, j | 0 <= i < j < |keys| ensures Less(keys[i], keys[j]) {
      assert StringOrder()(keys[i], keys[j]);
      LessTotal(keys[i], keys[j]);
    }
  }

  /** One of Compare's loops over sorted keys: append what `make` yields for each. */
  method Collect(keys: seq<string>, make: string --> Option<Operation>) returns (ops: seq<Operation>)
    requires AscendingStrings(keys) && forall k :: k in keys ==> make.requires(k)
    requires forall k :: k in keys && make(k).Some? ==> ObjectName(make(k).value) == k
    ensures forall i, j :: 0 <= i < j < |ops| ==> Less(ObjectName(ops[i]), ObjectName(ops[j]))
    ensures forall op :: op in ops <==> ObjectName(op) in keys && make(ObjectName(op)) == Some(op)
  {
    ops := [];
    for i := 0 to |keys|
      invariant forall x, y :: 0 <= x < y < |ops| ==> Less(ObjectName(ops[x]), ObjectName(ops[y]))
      invariant forall x :: 0 <= x < |ops| ==> ObjectName(ops[x]) in keys[..i]
      invariant forall op :: op in ops <==> ObjectName(op) in keys[..i] && make(ObjectName(op)) == Some(op)
    {
      assert keys[..i + 1] == keys[..i] + [keys[i]];
      assert forall k :: k in keys[..i] ==> Less(k, keys[i]);
      LessIrreflexive(keys[i]);
      if make(keys[i]).Some? {
        ops := ops + [make(keys[i]).value];
      }
    }
    assert keys[..|keys|] == keys;
  }

  lemma NamesAscendGrouped(ops: seq<Operation>)
    requires forall i, j :: 0 <= i < j < |ops| ==> Less(ObjectName(ops[i]), ObjectName(ops[j]))
    ensures Grouped(ops)
  {
  }

  method ChangedColumns(table: string, exp: map<string, Column>, act: map<string, Column>) returns (ops: seq<Operation>)
    requires forall n :: n in exp ==> exp[n].name == n
    requires forall n :: n in act ==> act[n].name == n
    ensures Grouped(ops)
    ensures forall op :: op in ops <==> op.table == table && !op.DropColumn? && NeededColumn(op, exp, act)
  {
    var keys := SortedKeys(exp);
    ops := Collect(keys, n requires n in exp =>
      if n !in act then Some(AddColumn(table, exp[n]))
      else if !ColumnsEqual(exp[n], act[n]) then Some(AlterColumn(table, exp[n], act[n]))
      else None);
    NamesAscendGrouped(ops);
  }

  method DroppedColumns(table: string, exp: map<string, Column>, act: map<string, Column>) returns (ops: seq<Operation>)
    requires forall n :: n in exp ==> exp[n].name == n
    requires forall n :: n in act ==> act[n].name == n
    ensures Grouped(ops)
    ensures forall op :: op in ops <==> op.table == table && op.DropColumn? && NeededColumn(op, exp, act)
  {
    var keys := SortedKeys(act);
    ops := Collect(keys, n requires n in act =>
      if n !in exp then Some(DropColumn(table, act[n])) else None);
    NamesAscendGrouped(ops);
  }

  method ChangedIndexes(table: string, exp: map<string, Index>, act: map<string, Index>) returns (ops: seq<Operation>)
    requires forall n :: n in exp ==> exp[n].name == n
    requires forall n :: n in act ==> act[n].name == n
    ensures Grouped(ops)
    ensures forall op :: op in ops <==> op.table == table && op.CreateIndex? && NeededIndex(op, exp, act)
  {
    var keys := SortedKeys(exp);
    ops := Collect(keys, n requires n in exp =>
      if n !in act || !IndexesEqual(exp[n], act[n]) then Some(CreateIndex(table, exp[n])) else None);
    NamesAscendGrouped(ops);
  }

  method DroppedIndexes(table: string, exp: map<string, Index>, act: map<string, Index>) returns (ops: seq<Operation>)
    requires forall n :: n in exp ==> exp[n].name == n
    requires forall n :: n in act ==> act[n].name == n
    ensures Grouped(ops)
    ensures forall op :: op in ops <==> op.table == table && op.DropIndex? && NeededIndex(op, exp, act)
  {
    var keys := SortedKeys(act);
    ops := Collect(keys, n requires n in act =>
      if n !in exp then Some(DropIndex(table, act[n])) else None);
    NamesAscendGrouped(ops);
  }

  method ChangedConstraints(table: string, exp: map<string, Constraint>, act: map<string, Constraint>)
    returns (ops: seq<Operation>)
    requires forall n :: n in exp ==> exp[n].name == n
    requires forall n :: n in act ==> act[n].name == n
    ensures Grouped(ops)
    ensures forall op :: op in ops <==> op.table == table && op.CreateConstraint? && NeededConstraint(op, exp, act)
  {
    var keys := SortedKeys(exp);
    ops := Collect(keys, n requires n in exp =>
      if n !in act || !ConstraintsEqual(exp[n], act[n]) then Some(CreateConstraint(table, exp[n])) else None);
    NamesAscendGrouped(ops);
  }

  method DroppedConstraints(table: string, exp: map<string, Constraint>, act: map<string, Constraint>)
    returns (ops: seq<Operation>)
    requires forall n :: n in exp ==> exp[n].name == n
    requires forall n :: n in act ==> act[n].name == n
    ensures Grouped(ops)
    ensures forall op :: op in ops <==> op.table == table && op.DropConstraint? && NeededConstraint(op, exp, act)
  {
    var keys := SortedKeys(act);
    ops := Collect(keys, n requires n in act =>
      if n !in exp then Some(DropConstraint(table, act[n])) else None);
    NamesAscendGrouped(ops);
  }

  method CompareColumns(table: string, exp: map<string, Column>, act: map<string, Column>) returns (ops: seq<Operation>)
    requires forall n :: n in exp ==> exp[n].name == n
    requires forall n :: n in act ==> act[n].name == n
    ensures Grouped(ops)
    ensures forall op :: op in ops <==> op.table == table && NeededColumn(op, exp, act)
  {
    ops := ChangedColumns(table, exp, act);
    var dropped := DroppedColumns(table, exp, act);
    GroupedAppend(ops, dropped);
    ops := ops + dropped;
  }

  method CompareIndexes(table: string, exp: map<string, Index>, act: map<string, Index>) returns (ops: seq<Operation>)
    requires forall n :: n in exp ==> exp[n].name == n
    requires forall n :: n in act ==> act[n].name == n
    ensures Grouped(ops)
    ensures forall op :: op in ops <==> op.table == table && NeededIndex(op, exp, act)
  {
    ops := ChangedIndexes(table, exp, act);
    var dropped := DroppedIndexes(table, exp, act);
    GroupedAppend(ops, dropped);
    ops := ops + dropped;
  }

  method CompareConstraints(table: string, exp: map<string, Constraint>, act: map<string, Constraint>)
    returns (ops: seq<Operation>)
    requires forall n :: n in exp ==> exp[n].name == n
    requires forall n :: n in act ==> act[n].name == n
    ensures Grouped(ops)
    ensures forall op :: op in ops <==> op.table == table && NeededConstraint(op, exp, act)
  {
    ops := ChangedConstraints(table, exp, act);
    var dropped := DroppedConstraints(table, exp, act);
    GroupedAppend(ops, dropped);
    ops := ops + dropped;
  }

  /** The part of compareTable behind the name maps. */
  method CompareShapes(table: string, exp: TableShape, act: TableShape) returns (out: seq<Operation>)
    requires Keyed(exp) && Keyed(act)
    ensures Grouped(out)
    ensures forall op :: op in out <==> op.table == table && NeededInTable(op, exp, act)
  {
    out := CompareColumns(table, exp.columns, act.columns);
    var indexes := CompareIndexes(table, exp.indexes, act.indexes);
    var constraints := CompareConstraints(table, exp.constraints, act.constraints);
    GroupedAppend(out, indexes);
    out := out + indexes;
    assert forall x, y :: x in out && y in constraints ==> Apart(x, y);
    GroupedAppend(out, constraints);
    out := out + constraints;
  }

  method CompareTable(expected: Table, actual: Table) returns (out: seq<Operation>)
    ensures Grouped(out)
    ensures forall op :: op in out <==>
            op.table == expected.name && NeededInTable(op, ShapeOf(expected), ShapeOf(actual))
  {
    var expCols := NameMap(expected.columns, ColumnName);
    var actCols := NameMap(actual.columns, ColumnName);
    var expIndexes := NameMap(expected.indexes, IndexName);
    var actIndexes := NameMap(actual.indexes, IndexName);
    var expConstraints := NameMap(expected.constraints, ConstraintName);
    var actConstraints := NameMap(actual.constraints, ConstraintName);
    KeyedByName(expected);
    KeyedByName(actual);
    out := CompareShapes(expected.name, TableShape(expCols, expIndexes, expConstraints),
        TableShape(actCols, actIndexes, actConstraints));
  }

  /** Every entry is found under its own name. */
  predicate Keyed(s: TableShape) {
    && (forall n :: n in s.columns ==> s.columns[n].name == n) &&
        (forall n :: n in s.indexes ==> s.indexes[n].name == n)
    && (forall n :: n in s.constraints ==> s.constraints[n].name == n)
  }

  lemma KeyedByName(t: Table)
    ensures Keyed(ShapeOf(t))
  {
    ByNameEntries(t.columns, ColumnName);
    ByNameEntries(t.indexes, IndexName);
    ByNameEntries(t.constraints, ConstraintName);
  }

  /** The name maps Compare works on: tables of a sorted clone. */
  function SortedTables(s: Schema): Tables {
    ByName(SortSchema(s).tables, TableName)
  }

  /** The operations on the tables in `names`. */
  ghost predicate Covers(ops: seq<Operation>, names: set<string>, e: Tables, a: Tables) {
    Grouped(ops) && forall op :: op in ops <==> op.table in names && Needed(op, e, a)
  }

  lemma CoversStep(ops: seq<Operation>, names: set<string>, more: seq<Operation>, name: string, e: Tables, a: Tables)
    requires Covers(ops, names, e, a) && name !in names && Covers(more, {name}, e, a)
    ensures Covers(ops + more, names + {name}, e, a)
  {
    GroupedAppend(ops, more);
  }

  /** The loop over the expected tables. */
  method CompareExpected(exp: Tables, act: Tables) returns (ops: seq<Operation>)
    requires forall n :: n in exp ==> exp[n].name == n
    ensures Covers(ops, exp.Keys, exp, act)
  {
    ops := [];
    var names := SortedKeys(exp);
    ghost var seen: set<string> := {};
    for i := 0 to |names|
      invariant (forall n :: n in seen <==> n in names[..i]) && Covers(ops, seen, exp, act)
    {
      var name := names[i];
      assert names[..i + 1] == names[..i] + [name];
      assert name !in seen by { LessIrreflexive(name); }
      var more;
      if name !in act {
        more := [CreateTable(name, exp[name])];
      } else {
        more := CompareTable(exp[name], act[name]);
      }
      assert Covers(more, {name}, exp, act);
      CoversStep(ops, seen, more, name, exp, act);
      ops := ops + more;
      seen := seen + {name};
    }
    assert names[..|names|] == names;
    assert seen == exp.Keys;
  }

  /** The loop over the tables that are no longer expected. */
  method CompareDropped(exp: Tables, act: Tables) returns (ops: seq<Operation>)
    ensures Covers(ops, act.Keys - exp.Keys, exp, act)
  {
    ops := [];
    var names := SortedKeys(act);
    ghost var seen: set<string> := {};
    for i := 0 to |names|
      invariant (forall n :: n in seen <==> n in names[..i] && n !in exp) && Covers(ops, seen, exp, act)
    {
      var name := names[i];
      assert names[..i + 1] == names[..i] + [name];
      if name !in exp {
        assert name !in seen by { LessIrreflexive(name); }
        var more := [DropTable(name, Some(act[name]))];
        assert Covers(more, {name}, exp, act);
        CoversStep(ops, seen, more, name, exp, act);
        ops := ops + more;
        seen := seen + {name};
      }
    }
    assert names[..|names|] == names;
    assert seen == act.Keys - exp.Keys;
  }

  method Compare(expected: Option<Schema>, actual: Option<Schema>) returns (r: Result<seq<Operation>, SchemaError>)
    ensures r.Failure? <==> expected.None? || actual.None?
    ensures r.Success? ==> IsDiff(r.value, SortedTables(expected.value), SortedTables(actual.value))
  {
    if expected.None? || actual.None? { return Failure(InvalidSchema); }
    var e, a := SortSchema(expected.value), SortSchema(actual.value);
    var expTables := NameMap(e.tables, TableName);
    var actTables := NameMap(a.tables, TableName);
    ByNameEntries(e.tables, TableName);
    var ops := CompareExpected(expTables, actTables);
    var dropped := CompareDropped(expTables, actTables);
    GroupedAppend(ops, dropped);
    ops := ops + dropped;
    SortedGrouped(ops);
    r := Success(OpSort(ops));
  }
}
