/** Whether the table and the columns a foreign key refers to are there when Compare's list adds the key. */
module ForeignKeys {
  import opened Text
  import opened SchemaModel
  import opened SchemaDiff
  import opened DiffSemantics
  import opened Wrappers

  const FOREIGN_KEY := "foreign_key"

  predicate AddsKeys(op: Operation) {
    op.CreateConstraint? || op.CreateTable?
  }

  /** The foreign keys an operation adds; those of a new table are part of its definition. */
  predicate AddsKey(op: Operation, key: Constraint) {
    key.kind == FOREIGN_KEY && ((op.CreateConstraint? && key == op.con) ||
        (op.CreateTable? && key in op.def.constraints))
  }

  /** A new table may refer to itself; otherwise the table and the columns have to be there already. */
  predicate KeyFits(op: Operation, key: Constraint, s: Catalog) {
    if op.CreateTable? && key.referencedTable == op.table then HasColumns(ShapeOf(op.def), key.referencedColumns)
    else key.referencedTable in s && HasColumns(s[key.referencedTable], key.referencedColumns)
  }

  // -------------------------------------------------------------------- the table

  /**
   * A table a later operation on t can refer to: it stays, or it is created and sorts first, or it goes and sorts
   * later.
   */
  predicate TableThen(e: Tables, a: Tables, t: string, r: string) {
    (r in a && r in e) || (r in e && Less(r, t)) || (r in a && Less(t, r))
  }

  lemma WholeTableDone(ops: seq<Operation>, k: nat, e: Tables, a: Tables, r: string)
    requires IsDiff(ops, e, a) && k < |ops| && (r in e) != (r in a) && AddsKeys(ops[k])
    ensures OnTable(r) in Targets(ops[..k]) <==> Less(r, ops[k].table)
  {
    var op := ops[k];
    assert op in ops && Needed(op, e, a);
    LessTotal(r, op.table);
    if Less(r, op.table) { LessAsymmetric(r, op.table); }
    var whole := if r in e then CreateTable(r, e[r]) else DropTable(r, Some(a[r]));
    assert Needed(whole, e, a);
    DoneBefore(ops, k, whole);
    if OnTable(r) in Targets(ops[..k]) {
      var x :| x in ops[..k] && Target(x) == OnTable(r);
      assert x in ops;
      SameTargetSameOp(x, whole, e, a);
    }
    if Less(r, op.table) { assert Target(whole) in Targets(ops[..k]); }
  }

  lemma ReferencedTableThere(ops: seq<Operation>, k: nat, e: Tables, a: Tables, c: Catalog, r: string)
    requires IsDiff(ops, e, a) && k < |ops| && c.Keys == a.Keys && AddsKeys(ops[k])
    ensures r in ApplyAll(ops[..k], c) <==> TableThen(e, a, ops[k].table, r)
  {
    PrefixState(ops, k, e, a, c);
    var op := ops[k];
    assert op in ops && Needed(op, e, a);
    LessTotal(r, op.table);
    if Less(r, op.table) { LessAsymmetric(r, op.table); }
    if (r in e) != (r in a) { WholeTableDone(ops, k, e, a, r); }
  }

  // ------------------------------------------------------------------ the columns

  predicate ColumnIn(ts: Tables, r: string, n: string) {
    r in ts && n in ShapeOf(ts[r]).columns
  }

  /** The same for a column; on one table additions sort before constraints and removals after them. */
  predicate ColumnThen(e: Tables, a: Tables, t: string, r: string, n: string) {
    || (ColumnIn(e, r, n) && ColumnIn(a, r, n))
    || (ColumnIn(e, r, n) && (Less(r, t) || (r == t && t in a)))
    || (ColumnIn(a, r, n) && (Less(t, r) || r == t))
  }

  lemma ColumnDone(ops: seq<Operation>, k: nat, e: Tables, a: Tables, r: string, n: string)
    requires IsDiff(ops, e, a) && k < |ops| && AddsKeys(ops[k]) && r in e && r in a &&
             ColumnIn(e, r, n) != ColumnIn(a, r, n)
    ensures OnColumn(r, n) in Targets(ops[..k]) <==> Less(r, ops[k].table) || (r == ops[k].table && ColumnIn(e, r, n))
  {
    var op := ops[k];
    assert op in ops && Needed(op, e, a);
    KeyedByName(e[r]);
    KeyedByName(a[r]);
    LessTotal(r, op.table);
    LessIrreflexive(r);
    if Less(r, op.table) { LessAsymmetric(r, op.table); }
    var change := if ColumnIn(e, r, n) then AddColumn(r, ShapeOf(e[r]).columns[n])
        else DropColumn(r, ShapeOf(a[r]).columns[n]);
    assert Needed(change, e, a);
    DoneBefore(ops, k, change);
    if OnColumn(r, n) in Targets(ops[..k]) {
      var x :| x in ops[..k] && Target(x) == OnColumn(r, n);
      assert x in ops;
      SameTargetSameOp(x, change, e, a);
    }
    if change in ops[..k] { assert Target(change) in Targets(ops[..k]); }
  }

  lemma MixedColumn(e: Table, c: TableShape, done: set<Slot>, r: string, n: string)
    ensures n in MixShape(r, ShapeOf(e), c, done).columns
            <==> if OnColumn(r, n) in done then n in ShapeOf(e).columns else n in c.columns
  {
    assert n in ColumnSlots(r, done) <==> OnColumn(r, n) in done;
  }

  /** On a table both sides have. */
  lemma ColumnOfStayingTable(ops: seq<Operation>, k: nat, e: Tables, a: Tables, c: TableShape, r: string, n: string)
    requires IsDiff(ops, e, a) && k < |ops| && AddsKeys(ops[k]) && r in e && r in a && SameShape(c, ShapeOf(a[r]))
    ensures n in MixShape(r, ShapeOf(e[r]), c, Targets(ops[..k])).columns <==> ColumnThen(e, a, ops[k].table, r, n)
  {
    var t := ops[k].table;
    LessTotal(r, t);
    LessIrreflexive(r);
    if Less(r, t) { LessAsymmetric(r, t); }
    assert n in c.columns <==> n in ShapeOf(a[r]).columns;
    if ColumnIn(e, r, n) != ColumnIn(a, r, n) { ColumnDone(ops, k, e, a, r, n); }
    MixedColumn(e[r], c, Targets(ops[..k]), r, n);
  }

  /** On a table only one side has. */
  lemma ColumnOfOtherTable(ops: seq<Operation>, k: nat, e: Tables, a: Tables, c: Catalog, r: string, n: string)
    requires IsDiff(ops, e, a) && k < |ops| && AddsKeys(ops[k]) && (r in e) != (r in a) && Equivalent(c, Shapes(a))
    ensures var s := Halfway(Shapes(e), c, Targets(ops[..k]));
            r in s && n in s[r].columns <==> ColumnThen(e, a, ops[k].table, r, n)
  {
    var t := ops[k].table;
    assert ops[k] in ops && Needed(ops[k], e, a);
    LessTotal(r, t);
    if Less(r, t) { LessAsymmetric(r, t); }
    WholeTableDone(ops, k, e, a, r);
    if r in a { assert SameShape(c[r], Shapes(a)[r]) && (n in c[r].columns <==> n in ShapeOf(a[r]).columns); }
  }

  lemma ReferencedColumnThere(ops: seq<Operation>, k: nat, e: Tables, a: Tables, c: Catalog, r: string, n: string)
    requires IsDiff(ops, e, a) && k < |ops| && Equivalent(c, Shapes(a)) && AddsKeys(ops[k])
    ensures var s := ApplyAll(ops[..k], c);
            r in s && n in s[r].columns <==> ColumnThen(e, a, ops[k].table, r, n)
  {
    PrefixState(ops, k, e, a, c);
    if (r in e) != (r in a) {
      ColumnOfOtherTable(ops, k, e, a, c, r, n);
    } else if r in e {
      assert SameShape(c[r], Shapes(a)[r]);
      ColumnOfStayingTable(ops, k, e, a, c[r], r, n);
    }
  }

  // ---------------------------------------------------------------------- the keys

  /** What has to be true of the two schemas for a key to find what it refers to. */
  predicate KeyThen(op: Operation, key: Constraint, e: Tables, a: Tables) {
    if op.CreateTable? && key.referencedTable == op.table then HasColumns(ShapeOf(op.def), key.referencedColumns)
    else
      && TableThen(e, a, op.table, key.referencedTable)
      && forall n :: n in key.referencedColumns ==> ColumnThen(e, a, op.table, key.referencedTable, n)
  }

  lemma KeyFitsIff(ops: seq<Operation>, k: nat, e: Tables, a: Tables, c: Catalog, key: Constraint)
    requires IsDiff(ops, e, a) && k < |ops| && Equivalent(c, Shapes(a)) && AddsKey(ops[k], key)
    ensures KeyFits(ops[k], key, ApplyAll(ops[..k], c)) <==> KeyThen(ops[k], key, e, a)
  {
    ReferencedTableThere(ops, k, e, a, c, key.referencedTable);
    forall n ensures var s := ApplyAll(ops[..k], c);
                     key.referencedTable in s && n in s[key.referencedTable].columns
                     <==> ColumnThen(e, a, ops[k].table, key.referencedTable, n)
    {
      ReferencedColumnThere(ops, k, e, a, c, key.referencedTable, n);
    }
  }

  predicate FitsWithKeys(op: Operation, s: Catalog) {
    Fits(op, s) && KeysFit(op, s)
  }

  predicate KeysFit(op: Operation, s: Catalog) {
    match op
    case CreateConstraint(_, con) => con.kind == FOREIGN_KEY ==> KeyFits(op, con, s)
    case CreateTable(_, def) => forall key :: key in def.constraints && key.kind == FOREIGN_KEY ==> KeyFits(op, key, s)
    case _ => true
  }

  lemma KeysFitAll(op: Operation, s: Catalog)
    ensures KeysFit(op, s) <==> forall key :: AddsKey(op, key) ==> KeyFits(op, key, s)
  {
  }

  /**
   * The whole list can run, foreign keys included, exactly if every key it adds is in luck with the order of table
   * names.
   */
  lemma EveryStepFitsIff(ops: seq<Operation>, e: Tables, a: Tables, c: Catalog)
    requires IsDiff(ops, e, a) && Equivalent(c, Shapes(a)) && WellFormed(Shapes(e))
    ensures (forall k :: 0 <= k < |ops| ==> FitsWithKeys(ops[k], ApplyAll(ops[..k], c)))
       <==> (forall op, key :: op in ops && AddsKey(op, key) ==> KeyThen(op, key, e, a))
  {
    forall k | 0 <= k < |ops|
      ensures FitsWithKeys(ops[k], ApplyAll(ops[..k], c))
        <==> forall key :: AddsKey(ops[k], key) ==> KeyThen(ops[k], key, e, a)
    {
      EveryStepFits(ops, k, e, a, c);
      KeysFitAll(ops[k], ApplyAll(ops[..k], c));
      forall key | AddsKey(ops[k], key)
        ensures KeyFits(ops[k], key, ApplyAll(ops[..k], c)) <==> KeyThen(ops[k], key, e, a)
      {
        KeyFitsIff(ops, k, e, a, c, key);
      }
    }
  }

  // ------------------------------------------------------------- two schemas out of luck

  function PlainColumn(name: string): Column {
    Column(name, ColumnType("bigint", "int", false), false, false, false, false, "", "", map[])
  }

  function Key(name: string, column: string, r: string, n: string): Constraint {
    Constraint(name, FOREIGN_KEY, [column], r, [n], "", "", "", map[])
  }

  function TableWith(name: string, columns: seq<Column>, keys: seq<Constraint>): Table {
    Table(name, columns, [], keys, map[])
  }

  function OrdersAndUsers(): Tables {
    map["orders" := TableWith("orders", [PlainColumn("user_id")], [Key("fk", "user_id", "users", "id")]),
        "users" := TableWith("users", [PlainColumn("id")], [])]
  }

  /** In an empty database, orders with its key is created before the users it refers to. */
  lemma NewTableRefersAhead(ops: seq<Operation>) returns (k: nat)
    requires IsDiff(ops, OrdersAndUsers(), map[])
    ensures k < |ops| && ops[k].CreateTable? && ops[k].table == "orders" && !KeysFit(ops[k], ApplyAll(ops[..k], map[]))
  {
    var key, e := Key("fk", "user_id", "users", "id"), OrdersAndUsers();
    var op := CreateTable("orders", e["orders"]);
    assert Needed(op, e, map[]);
    k :| 0 <= k < |ops| && ops[k] == op;
    LessAt("orders", "users", 0);
    LessAsymmetric("orders", "users");
    assert Equivalent(map[], Shapes(map[]));
    assert key in op.def.constraints;
    KeyFitsIff(ops, k, e, map[], map[], key);
  }

  /** Two tables, before and after z gets the column ref and a a key to it. */
  function Unreferred(): Tables {
    map["a" := TableWith("a", [PlainColumn("x")], []), "z" := TableWith("z", [PlainColumn("id")], [])]
  }

  function Referred(): Tables {
    map["a" := TableWith("a", [PlainColumn("x")], [Key("fk", "x", "z", "ref")]),
        "z" := TableWith("z", [PlainColumn("id"), PlainColumn("ref")], [])]
  }

  lemma ReferredFacts()
    ensures var key := Key("fk", "x", "z", "ref"); var op := CreateConstraint("a", key);
            && Needed(op, Referred(), Unreferred()) && TableThen(Referred(), Unreferred(), "a", "z")
            && !KeyThen(op, key, Referred(), Unreferred())
  {
    var key, a, e := Key("fk", "x", "z", "ref"), Unreferred(), Referred();
    assert ShapeOf(e["a"]).constraints == map["fk" := key];
    LessAt("a", "z", 0);
    LessAsymmetric("a", "z");
    assert ShapeOf(a["z"]).columns.Keys == {"id"};
    assert !ColumnThen(e, a, "a", "z", "ref");
  }

  /** A key of a to a new column of z is created before the column. */
  lemma NewColumnReferredAhead(ops: seq<Operation>) returns (k: nat)
    requires IsDiff(ops, Referred(), Unreferred())
    ensures k < |ops| && ops[k].CreateConstraint?
    ensures var s := ApplyAll(ops[..k], Shapes(Unreferred()));
            "z" in s && !KeysFit(ops[k], s)
  {
    var key := Key("fk", "x", "z", "ref");
    var op, s := CreateConstraint("a", key), Shapes(Unreferred());
    ReferredFacts();
    k :| 0 <= k < |ops| && ops[k] == op;
    EquivalenceRelation(s, s, s);
    ReferencedTableThere(ops, k, Referred(), Unreferred(), s, "z");
    KeyFitsIff(ops, k, Referred(), Unreferred(), s, key);
  }
}
