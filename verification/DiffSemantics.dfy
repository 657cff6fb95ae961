/** What an operation list does to a schema, and what Compare's list achieves. */
module DiffSemantics {
  import opened Text
  import opened SchemaModel
  import opened SchemaDiff
  import opened Wrappers

  // -------------------------------------------------- reference meaning of operations

  /** The effect of one operation on name-keyed tables; creating an index or constraint replaces a namesake. */
  function Apply(op: Operation, c: Catalog): Catalog {
    match op
    case CreateTable(t, def) => c[t := ShapeOf(def)]
    case DropTable(t, _) => c - {t}
    case _ => if op.table in c then c[op.table := ApplyInTable(op, c[op.table])] else c
  }

  function ApplyInTable(op: Operation, s: TableShape): TableShape {
    match op
    case CreateTable(_, _) => s
    case DropTable(_, _) => s
    case AddColumn(_, col) => s.(columns := s.columns[col.name := col])
    case DropColumn(_, col) => s.(columns := s.columns - {col.name})
    case AlterColumn(_, col, _) => s.(columns := s.columns[col.name := col])
    case CreateIndex(_, i) => s.(indexes := s.indexes[i.name := i])
    case DropIndex(_, i) => s.(indexes := s.indexes - {i.name})
    case CreateConstraint(_, con) => s.(constraints := s.constraints[con.name := con])
    case DropConstraint(_, con) => s.(constraints := s.constraints - {con.name})
  }

  function ApplyAll(ops: seq<Operation>, c: Catalog): Catalog {
    if ops == [] then c else ApplyAll(ops[1..], Apply(ops[0], c))
  }

  lemma {:induction false} ApplyAllSplit(p: seq<Operation>, q: seq<Operation>, c: Catalog)
    ensures ApplyAll(p + q, c) == ApplyAll(q, ApplyAll(p, c))
  {
    if p == [] {
      assert p + q == q;
    } else {
      assert (p + q)[1..] == p[1..] + q;
      ApplyAllSplit(p[1..], q, Apply(p[0], c));
    }
  }

  // ---------------------------------------------------------- equality up to Compare

  predicate SameEntries<T>(x: map<string, T>, y: map<string, T>, eq: (T, T) -> bool) {
    x.Keys == y.Keys && forall n :: n in x ==> eq(x[n], y[n])
  }

  predicate SameShape(x: TableShape, y: TableShape) {
    && SameEntries(x.columns, y.columns, ColumnsEqual) && SameEntries(x.indexes, y.indexes, IndexesEqual)
    && SameEntries(x.constraints, y.constraints, ConstraintsEqual)
  }

  /** The two schemas cannot be told apart by Compare. */
  predicate Equivalent(x: Catalog, y: Catalog) {
    x.Keys == y.Keys && forall t :: t in x ==> SameShape(x[t], y[t])
  }

  ghost predicate IsEquivalence<T(!new)>(eq: (T, T) -> bool) {
    && (forall x :: eq(x, x)) && (forall x, y :: eq(x, y) ==> eq(y, x))
    && (forall x, y, z :: eq(x, y) && eq(y, z) ==> eq(x, z))
  }

  lemma EqualitiesAreEquivalences()
    ensures IsEquivalence(ColumnsEqual) && IsEquivalence(IndexesEqual) && IsEquivalence(ConstraintsEqual)
  {
  }

  lemma SameEntriesEquivalence<T(!new)>(x: map<string, T>, y: map<string, T>, z: map<string, T>, eq: (T, T) -> bool)
    requires IsEquivalence(eq)
    ensures SameEntries(x, x, eq)
    ensures SameEntries(x, y, eq) ==> SameEntries(y, x, eq)
    ensures SameEntries(x, y, eq) && SameEntries(y, z, eq) ==> SameEntries(x, z, eq)
  {
  }

  lemma SameShapeEquivalence(x: TableShape, y: TableShape, z: TableShape)
    ensures SameShape(x, x)
    ensures SameShape(x, y) ==> SameShape(y, x)
    ensures SameShape(x, y) && SameShape(y, z) ==> SameShape(x, z)
  {
    EqualitiesAreEquivalences();
    SameEntriesEquivalence(x.columns, y.columns, z.columns, ColumnsEqual);
    SameEntriesEquivalence(x.indexes, y.indexes, z.indexes, IndexesEqual);
    SameEntriesEquivalence(x.constraints, y.constraints, z.constraints, ConstraintsEqual);
  }

  lemma EquivalenceRelation(x: Catalog, y: Catalog, z: Catalog)
    ensures Equivalent(x, x)
    ensures Equivalent(x, y) ==> Equivalent(y, x)
    ensures Equivalent(x, y) && Equivalent(y, z) ==> Equivalent(x, z)
  {
    forall t | t in x ensures SameShape(x[t], x[t]) { SameShapeEquivalence(x[t], x[t], x[t]); }
    if Equivalent(x, y) {
      forall t | t in y ensures SameShape(y[t], x[t]) { SameShapeEquivalence(x[t], y[t], y[t]); }
      if Equivalent(y, z) {
        forall t | t in x ensures SameShape(x[t], z[t]) { SameShapeEquivalence(x[t], y[t], z[t]); }
      }
    }
  }

  // -------------------------------------------------- operations respect the equality

  lemma SameEntriesWith<T>(x: map<string, T>, y: map<string, T>, eq: (T, T) -> bool, n: string, v: T)
    requires SameEntries(x, y, eq) && eq(v, v)
    ensures SameEntries(x[n := v], y[n := v], eq) && SameEntries(x - {n}, y - {n}, eq)
  {
  }

  /** The parts of two shapes have the same entries, whatever that means for each. */
  predicate SameParts(x: TableShape, y: TableShape, c: (Column, Column) -> bool, i: (Index, Index) -> bool,
                      k: (Constraint, Constraint) -> bool)
  {
    SameEntries(x.columns, y.columns, c) && SameEntries(x.indexes, y.indexes, i) &&
    SameEntries(x.constraints, y.constraints, k)
  }

  lemma ChangeKeepsParts(op: Operation, x: TableShape, y: TableShape, c: (Column, Column) -> bool,
                         i: (Index, Index) -> bool, k: (Constraint, Constraint) -> bool)
    requires SameParts(x, y, c, i, k)
    requires op.AddColumn? || op.DropColumn? || op.AlterColumn? ==> c(op.column, op.column)
    requires op.CreateIndex? || op.DropIndex? ==> i(op.index, op.index)
    requires op.CreateConstraint? || op.DropConstraint? ==> k(op.con, op.con)
    ensures SameParts(ApplyInTable(op, x), ApplyInTable(op, y), c, i, k)
  {
    if op.AddColumn? || op.DropColumn? || op.AlterColumn? {
      SameEntriesWith(x.columns, y.columns, c, op.column.name, op.column);
    } else if op.CreateIndex? || op.DropIndex? {
      SameEntriesWith(x.indexes, y.indexes, i, op.index.name, op.index);
    } else if op.CreateConstraint? || op.DropConstraint? {
      SameEntriesWith(x.constraints, y.constraints, k, op.con.name, op.con);
    }
  }

  lemma ApplyInTableKeepsSame(op: Operation, x: TableShape, y: TableShape)
    requires SameShape(x, y)
    ensures SameShape(ApplyInTable(op, x), ApplyInTable(op, y))
  {
    assert SameParts(x, y, ColumnsEqual, IndexesEqual, ConstraintsEqual);
    ChangeKeepsParts(op, x, y, ColumnsEqual, IndexesEqual, ConstraintsEqual);
    assert SameParts(ApplyInTable(op, x), ApplyInTable(op, y), ColumnsEqual, IndexesEqual, ConstraintsEqual);
  }

  lemma ApplyKeepsEquivalence(op: Operation, x: Catalog, y: Catalog)
    requires Equivalent(x, y)
    ensures Equivalent(Apply(op, x), Apply(op, y))
  {
    if op.CreateTable? {
      SameShapeEquivalence(ShapeOf(op.def), ShapeOf(op.def), ShapeOf(op.def));
    } else if !op.DropTable? && op.table in x {
      ApplyInTableKeepsSame(op, x[op.table], y[op.table]);
    }
  }

  lemma {:induction false} ApplyAllKeepsEquivalence(ops: seq<Operation>, x: Catalog, y: Catalog)
    requires Equivalent(x, y)
    ensures Equivalent(ApplyAll(ops, x), ApplyAll(ops, y))
  {
    if ops != [] {
      ApplyKeepsEquivalence(ops[0], x, y);
      ApplyAllKeepsEquivalence(ops[1..], Apply(ops[0], x), Apply(ops[0], y));
    }
  }

  // ------------------------------------------------------- the state half way through

  /** What an operation writes. */
  datatype Slot = OnTable(t: string) | OnColumn(t: string, n: string) | OnIndex(t: string, n: string) |
      OnConstraint(t: string, n: string)

  function Target(op: Operation): Slot {
    match op
    case CreateTable(t, _) => OnTable(t)
    case DropTable(t, _) => OnTable(t)
    case AddColumn(t, c) => OnColumn(t, c.name)
    case DropColumn(t, c) => OnColumn(t, c.name)
    case AlterColumn(t, c, _) => OnColumn(t, c.name)
    case CreateIndex(t, i) => OnIndex(t, i.name)
    case DropIndex(t, i) => OnIndex(t, i.name)
    case CreateConstraint(t, c) => OnConstraint(t, c.name)
    case DropConstraint(t, c) => OnConstraint(t, c.name)
  }

  function Targets(ops: seq<Operation>): set<Slot> {
    set op | op in ops :: Target(op)
  }

  function ColumnSlots(t: string, done: set<Slot>): set<string> { set s | s in done && s.OnColumn? && s.t == t :: s.n }
  function IndexSlots(t: string, done: set<Slot>): set<string> { set s | s in done && s.OnIndex? && s.t == t :: s.n }
  function ConstraintSlots(t: string, done: set<Slot>): set<string> {
    set s | s in done && s.OnConstraint? && s.t == t :: s.n
  }

  /** Names in `done` are as in e, all others as in c. */
  function Mix<T>(e: map<string, T>, c: map<string, T>, done: set<string>): map<string, T> {
    map n | n in e.Keys + c.Keys && (if n in done then n in e else n in c) :: if n in done then e[n] else c[n]
  }

  lemma MixTake<T>(e: map<string, T>, c: map<string, T>, done: set<string>, n: string)
    ensures Mix(e, c, done + {n}) == if n in e then Mix(e, c, done)[n := e[n]] else Mix(e, c, done) - {n}
  {
  }

  lemma MixNothing<T>(e: map<string, T>, c: map<string, T>)
    ensures Mix(e, c, {}) == c
  {
  }

  /** Outside `done` the two sides agree. */
  predicate Agree<T>(x: map<string, T>, y: map<string, T>, done: set<string>, eq: (T, T) -> bool) {
    forall n :: n in x.Keys + y.Keys && n !in done ==> n in x && n in y && eq(x[n], y[n])
  }

  lemma MixIsExpected<T(!new)>(x: map<string, T>, y: map<string, T>, c: map<string, T>, done: set<string>,
                        eq: (T, T) -> bool)
    requires IsEquivalence(eq) && SameEntries(c, y, eq) && Agree(x, y, done, eq)
    ensures SameEntries(Mix(x, c, done), x, eq)
  {
    var m := Mix(x, c, done);
    forall n ensures n in m <==> n in x {
      assert n in c <==> n in y;
    }
    forall n | n in m ensures eq(m[n], x[n]) {
      if n !in done { assert eq(c[n], y[n]) && eq(x[n], y[n]); }
    }
  }

  function MixShape(t: string, e: TableShape, c: TableShape, done: set<Slot>): TableShape {
    TableShape(Mix(e.columns, c.columns, ColumnSlots(t, done)), Mix(e.indexes, c.indexes, IndexSlots(t, done)),
               Mix(e.constraints, c.constraints, ConstraintSlots(t, done)))
  }

  /** Slots in `done` are as expected, all others as they were in c. */
  function Halfway(e: Catalog, c: Catalog, done: set<Slot>): Catalog {
    map t | t in e.Keys + c.Keys && (if OnTable(t) in done then t in e else t in c) ::
      if OnTable(t) in done then e[t] else if t in e then MixShape(t, e[t], c[t], done) else c[t]
  }

  /** Whole tables are only written when one side lacks them. */
  predicate TableSlots(done: set<Slot>, e: Tables, a: Tables) {
    forall s :: s in done && s.OnTable? ==> s.t !in e || s.t !in a
  }

  /** Which names one more slot adds on table t. */
  lemma SlotAdded(t: string, done: set<Slot>, s: Slot)
    ensures ColumnSlots(t, done + {s}) == if s.OnColumn? && s.t == t then ColumnSlots(t, done) + {s.n}
            else ColumnSlots(t, done)
    ensures IndexSlots(t, done + {s}) == if s.OnIndex? && s.t == t then IndexSlots(t, done) + {s.n}
            else IndexSlots(t, done)
    ensures ConstraintSlots(t, done + {s}) == if s.OnConstraint? && s.t == t then ConstraintSlots(t, done) + {s.n}
            else ConstraintSlots(t, done)
  {
  }

  lemma MixTakes(op: Operation, e: TableShape, a: TableShape, c: TableShape, done: set<Slot>)
    requires NeededInTable(op, e, a)
    ensures MixShape(op.table, e, c, done + {Target(op)}) == ApplyInTable(op, MixShape(op.table, e, c, done))
  {
    var s := Target(op);
    SlotAdded(op.table, done, s);
    match s {
      case OnColumn(t, n) => MixTake(e.columns, c.columns, ColumnSlots(t, done), n);
      case OnIndex(t, n) => MixTake(e.indexes, c.indexes, IndexSlots(t, done), n);
      case OnConstraint(t, n) => MixTake(e.constraints, c.constraints, ConstraintSlots(t, done), n);
    }
  }

  /** A slot of another table, or a whole table, leaves the mixed shape of t alone. */
  lemma OtherTable(t: string, e: TableShape, c: TableShape, done: set<Slot>, s: Slot)
    requires s.OnTable? || s.t != t
    ensures MixShape(t, e, c, done + {s}) == MixShape(t, e, c, done)
  {
    SlotAdded(t, done, s);
  }

  lemma HalfwayTable(e: Catalog, c: Catalog, done: set<Slot>, t: string)
    ensures Halfway(e, c, done + {OnTable(t)}) == if t in e then Halfway(e, c, done)[t := e[t]]
            else Halfway(e, c, done) - {t}
  {
    forall u | u in e && u in c ensures MixShape(u, e[u], c[u], done + {OnTable(t)}) == MixShape(u, e[u], c[u], done) {
      OtherTable(u, e[u], c[u], done, OnTable(t));
    }
  }

  lemma HalfwayInTable(e: Catalog, c: Catalog, done: set<Slot>, s: Slot)
    requires !s.OnTable? && s.t in e && s.t in c && OnTable(s.t) !in done
    ensures Halfway(e, c, done + {s}) == Halfway(e, c, done)[s.t := MixShape(s.t, e[s.t], c[s.t], done + {s})]
  {
    forall u | u in e && u in c && u != s.t
      ensures MixShape(u, e[u], c[u], done + {s}) == MixShape(u, e[u], c[u], done)
    {
      OtherTable(u, e[u], c[u], done, s);
    }
  }

  lemma HalfwayStep(op: Operation, e: Tables, a: Tables, c: Catalog, done: set<Slot>)
    requires Needed(op, e, a) && c.Keys == a.Keys && TableSlots(done, e, a)
    ensures Apply(op, Halfway(Shapes(e), c, done)) == Halfway(Shapes(e), c, done + {Target(op)})
  {
    var t := op.table;
    if op.CreateTable? || op.DropTable? {
      HalfwayTable(Shapes(e), c, done, t);
    } else {
      assert OnTable(t) !in done;
      HalfwayInTable(Shapes(e), c, done, Target(op));
      MixTakes(op, Shapes(e)[t], ShapeOf(a[t]), c[t], done);
    }
  }

  /** One operation more. */
  lemma OneMoreApplied(ops: seq<Operation>, k: nat, c: Catalog)
    requires 0 < k <= |ops|
    ensures ApplyAll(ops[..k], c) == Apply(ops[k - 1], ApplyAll(ops[..k - 1], c))
  {
    var op := ops[k - 1];
    assert ops[..k] == ops[..k - 1] + [op] && [op][1..] == [];
    ApplyAllSplit(ops[..k - 1], [op], c);
  }

  lemma OneMoreTarget(ops: seq<Operation>, k: nat)
    requires 0 < k <= |ops|
    ensures Targets(ops[..k]) == Targets(ops[..k - 1]) + {Target(ops[k - 1])}
  {
    assert ops[..k] == ops[..k - 1] + [ops[k - 1]];
  }

  /** After k operations exactly their targets are as expected. */
  lemma {:induction false} PrefixState(ops: seq<Operation>, k: nat, e: Tables, a: Tables, c: Catalog)
    requires k <= |ops| && c.Keys == a.Keys && forall op :: op in ops ==> Needed(op, e, a)
    ensures ApplyAll(ops[..k], c) == Halfway(Shapes(e), c, Targets(ops[..k]))
    ensures TableSlots(Targets(ops[..k]), e, a)
  {
    if k == 0 {
      assert Targets(ops[..0]) == {};
      NothingDone(Shapes(e), c);
    } else {
      PrefixState(ops, k - 1, e, a, c);
      OneMoreApplied(ops, k, c);
      OneMoreTarget(ops, k);
      HalfwayStep(ops[k - 1], e, a, c, Targets(ops[..k - 1]));
    }
  }

  lemma NothingMixed(t: string, e: TableShape, c: TableShape)
    ensures MixShape(t, e, c, {}) == c
  {
    assert ColumnSlots(t, {}) == {} && IndexSlots(t, {}) == {} && ConstraintSlots(t, {}) == {};
    MixNothing(e.columns, c.columns);
    MixNothing(e.indexes, c.indexes);
    MixNothing(e.constraints, c.constraints);
  }

  lemma NothingDone(e: Catalog, c: Catalog)
    ensures Halfway(e, c, {}) == c
  {
    var h := Halfway(e, c, {});
    assert h.Keys == c.Keys;
    forall t | t in c ensures h[t] == c[t] {
      if t in e { NothingMixed(t, e[t], c[t]); }
    }
  }

  // ------------------------------------------------------------------------ patching

  /** Slots Compare leaves alone already agree. */
  lemma ColumnsAgree(ops: seq<Operation>, e: Tables, a: Tables, t: string)
    requires IsDiff(ops, e, a) && t in e && t in a
    ensures Agree(ShapeOf(e[t]).columns, ShapeOf(a[t]).columns, ColumnSlots(t, Targets(ops)), ColumnsEqual)
  {
    KeyedByName(e[t]);
    KeyedByName(a[t]);
    var x, y := ShapeOf(e[t]).columns, ShapeOf(a[t]).columns;
    forall n | n in x.Keys + y.Keys
      ensures (n in x && n in y && ColumnsEqual(x[n], y[n])) || OnColumn(t, n) in Targets(ops)
    {
      if n !in y { assert Needed(AddColumn(t, x[n]), e, a); }
      else if n !in x { assert Needed(DropColumn(t, y[n]), e, a); }
      else if !ColumnsEqual(x[n], y[n]) { assert Needed(AlterColumn(t, x[n], y[n]), e, a); }
    }
  }

  lemma IndexesAgree(ops: seq<Operation>, e: Tables, a: Tables, t: string)
    requires IsDiff(ops, e, a) && t in e && t in a
    ensures Agree(ShapeOf(e[t]).indexes, ShapeOf(a[t]).indexes, IndexSlots(t, Targets(ops)), IndexesEqual)
  {
    KeyedByName(e[t]);
    KeyedByName(a[t]);
    var x, y := ShapeOf(e[t]).indexes, ShapeOf(a[t]).indexes;
    forall n | n in x.Keys + y.Keys
      ensures (n in x && n in y && IndexesEqual(x[n], y[n])) || OnIndex(t, n) in Targets(ops)
    {
      if n !in x { assert Needed(DropIndex(t, y[n]), e, a); }
      else if n !in y || !IndexesEqual(x[n], y[n]) { assert Needed(CreateIndex(t, x[n]), e, a); }
    }
  }

  lemma ConstraintsAgree(ops: seq<Operation>, e: Tables, a: Tables, t: string)
    requires IsDiff(ops, e, a) && t in e && t in a
    ensures Agree(ShapeOf(e[t]).constraints, ShapeOf(a[t]).constraints, ConstraintSlots(t, Targets(ops)),
            ConstraintsEqual)
  {
    KeyedByName(e[t]);
    KeyedByName(a[t]);
    var x, y := ShapeOf(e[t]).constraints, ShapeOf(a[t]).constraints;
    forall n | n in x.Keys + y.Keys
      ensures (n in x && n in y && ConstraintsEqual(x[n], y[n])) || OnConstraint(t, n) in Targets(ops)
    {
      if n !in x { assert Needed(DropConstraint(t, y[n]), e, a); }
      else if n !in y || !ConstraintsEqual(x[n], y[n]) { assert Needed(CreateConstraint(t, x[n]), e, a); }
    }
  }

  /** Exactly the tables only one side has are created or dropped. */
  lemma TablesTargeted(ops: seq<Operation>, e: Tables, a: Tables, t: string)
    requires IsDiff(ops, e, a)
    ensures OnTable(t) in Targets(ops) <==> (t in e) != (t in a)
  {
    if t in e && t !in a { assert Needed(CreateTable(t, e[t]), e, a); }
    if t in a && t !in e { assert Needed(DropTable(t, Some(a[t])), e, a); }
  }

  lemma PatchedTable(ops: seq<Operation>, e: Tables, a: Tables, c: TableShape, t: string)
    requires IsDiff(ops, e, a) && t in e && t in a && SameShape(c, ShapeOf(a[t]))
    ensures SameShape(MixShape(t, ShapeOf(e[t]), c, Targets(ops)), ShapeOf(e[t]))
  {
    EqualitiesAreEquivalences();
    var x, y, d := ShapeOf(e[t]), ShapeOf(a[t]), Targets(ops);
    ColumnsAgree(ops, e, a, t);
    IndexesAgree(ops, e, a, t);
    ConstraintsAgree(ops, e, a, t);
    MixIsExpected(x.columns, y.columns, c.columns, ColumnSlots(t, d), ColumnsEqual);
    MixIsExpected(x.indexes, y.indexes, c.indexes, IndexSlots(t, d), IndexesEqual);
    MixIsExpected(x.constraints, y.constraints, c.constraints, ConstraintSlots(t, d), ConstraintsEqual);
  }

  /**
   * Diffs patch: Compare(E, A) applied to any schema equivalent to A gives a schema equivalent to E.
   */
  lemma PatchReachesExpected(ops: seq<Operation>, e: Tables, a: Tables, c: Catalog)
    requires IsDiff(ops, e, a) && Equivalent(c, Shapes(a))
    ensures Equivalent(ApplyAll(ops, c), Shapes(e))
  {
    PrefixState(ops, |ops|, e, a, c);
    assert ops[..|ops|] == ops;
    var d, E := Targets(ops), Shapes(e);
    var r := Halfway(E, c, d);
    forall t ensures t in r <==> t in E { TablesTargeted(ops, e, a, t); }
    forall t | t in r ensures SameShape(r[t], E[t]) {
      TablesTargeted(ops, e, a, t);
      if t in a {
        assert SameShape(c[t], Shapes(a)[t]);
        PatchedTable(ops, e, a, c[t], t);
      } else {
        SameShapeEquivalence(E[t], E[t], E[t]);
      }
    }
  }

  lemma AlreadyInTable(op: Operation, e: TableShape, a: TableShape)
    requires NeededInTable(op, e, a)
    ensures ApplyInTable(op, e) == e
  {
    var r := ApplyInTable(op, e);
    assert r.columns == e.columns;
    assert r.indexes == e.indexes;
    assert r.constraints == e.constraints;
  }

  /** What a diff asks for is true of the expected schema already. */
  lemma AlreadyExpected(op: Operation, e: Tables, a: Tables)
    requires Needed(op, e, a)
    ensures Apply(op, Shapes(e)) == Shapes(e)
  {
    if op.table in e && op.table in a { AlreadyInTable(op, ShapeOf(e[op.table]), ShapeOf(a[op.table])); }
  }

  lemma {:induction false} AllAlreadyExpected(ops: seq<Operation>, e: Tables, a: Tables)
    requires forall op :: op in ops ==> Needed(op, e, a)
    ensures ApplyAll(ops, Shapes(e)) == Shapes(e)
  {
    if ops != [] {
      assert ops[0] in ops && forall op :: op in ops[1..] ==> op in ops;
      AlreadyExpected(ops[0], e, a);
      AllAlreadyExpected(ops[1..], e, a);
    }
  }

  /** A diff can be applied once more: the schema it led to stays. */
  lemma RedoneDiff(ops: seq<Operation>, e: Tables, a: Tables, d: Catalog)
    requires IsDiff(ops, e, a) && Equivalent(d, Shapes(e))
    ensures Equivalent(ApplyAll(ops, d), d)
  {
    AllAlreadyExpected(ops, e, a);
    ApplyAllKeepsEquivalence(ops, d, Shapes(e));
    EquivalenceRelation(d, Shapes(e), d);
    EquivalenceRelation(ApplyAll(ops, d), Shapes(e), d);
  }

  /** Compare returns the empty list exactly for equivalent schemas. */
  lemma EmptyIffEquivalent(ops: seq<Operation>, e: Tables, a: Tables)
    requires IsDiff(ops, e, a)
    ensures ops == [] <==> Equivalent(Shapes(a), Shapes(e))
  {
    if ops == [] {
      EquivalenceRelation(Shapes(a), Shapes(a), Shapes(a));
      PatchReachesExpected(ops, e, a, Shapes(a));
    } else {
      assert Needed(ops[0], e, a);
      NeededMeansDifferent(ops[0], e, a);
    }
  }

  // ------------------------------------------------ the same laws, record by record

  /** The two tables have the same columns, indexes and constraints by name, and namesakes are alike. */
  ghost predicate AlikeShapes(x: TableShape, y: TableShape) {
    && x.columns.Keys == y.columns.Keys && (forall n :: n in x.columns ==> AlikeColumns(x.columns[n], y.columns[n]))
    && x.indexes.Keys == y.indexes.Keys && (forall n :: n in x.indexes ==> AlikeIndexes(x.indexes[n], y.indexes[n]))
    && x.constraints.Keys == y.constraints.Keys
    && (forall n :: n in x.constraints ==> AlikeConstraints(x.constraints[n], y.constraints[n]))
  }

  ghost predicate AlikeSchemas(x: Catalog, y: Catalog) {
    x.Keys == y.Keys && forall t :: t in x ==> AlikeShapes(x[t], y[t])
  }

  lemma SameShapeIffAlike(x: TableShape, y: TableShape)
    ensures SameShape(x, y) <==> AlikeShapes(x, y)
  {
    forall a, b ensures ColumnsEqual(a, b) <==> AlikeColumns(a, b) {
      ColumnsEqualIff(a, b);
    }
    forall a, b ensures IndexesEqual(a, b) <==> AlikeIndexes(a, b) {
      IndexesEqualIff(a, b);
    }
    forall a, b ensures ConstraintsEqual(a, b) <==> AlikeConstraints(a, b) {
      ConstraintsEqualIff(a, b);
    }
  }

  /** What Compare cannot tell apart, said without Compare's own comparisons. */
  lemma EquivalentIffAlike(x: Catalog, y: Catalog)
    ensures Equivalent(x, y) <==> AlikeSchemas(x, y)
  {
    forall t | t in x && t in y ensures SameShape(x[t], y[t]) <==> AlikeShapes(x[t], y[t]) {
      SameShapeIffAlike(x[t], y[t]);
    }
  }

  /** The difference of two schemas is empty exactly if they have the same entries by name and namesakes are alike. */
  lemma EmptyIffAlike(ops: seq<Operation>, expected: Schema, actual: Schema)
    requires IsDiff(ops, SortedTables(expected), SortedTables(actual))
    ensures ops == [] <==> AlikeSchemas(CatalogOf(actual), CatalogOf(expected))
  {
    EmptyIffEquivalent(ops, SortedTables(expected), SortedTables(actual));
    SortKeepsCatalog(expected);
    SortKeepsCatalog(actual);
    EquivalentIffAlike(CatalogOf(actual), CatalogOf(expected));
  }

  /**
   * Namesakes are altered, or created again, exactly if they are not alike: a column by one alter_column from what is
   * there to what is expected, an index or a constraint by one create operation.
   */
  lemma ChangedIffNotAlike(ops: seq<Operation>, e: Tables, a: Tables, t: string)
    requires IsDiff(ops, e, a) && t in e && t in a
    ensures var x, y := ShapeOf(e[t]), ShapeOf(a[t]);
            && (forall n :: n in x.columns && n in y.columns ==>
                  (AlterColumn(t, x.columns[n], y.columns[n]) in ops <==> !AlikeColumns(x.columns[n], y.columns[n])))
            && (forall n :: n in x.indexes && n in y.indexes ==>
                  (CreateIndex(t, x.indexes[n]) in ops <==> !AlikeIndexes(x.indexes[n], y.indexes[n])))
            && (forall n :: n in x.constraints && n in y.constraints ==>
                  (CreateConstraint(t, x.constraints[n]) in ops <==>
                     !AlikeConstraints(x.constraints[n], y.constraints[n])))
  {
    var x, y := ShapeOf(e[t]), ShapeOf(a[t]);
    KeyedByName(e[t]);
    KeyedByName(a[t]);
    forall n | n in x.columns && n in y.columns
      ensures AlterColumn(t, x.columns[n], y.columns[n]) in ops <==> !AlikeColumns(x.columns[n], y.columns[n])
    {
      ColumnsEqualIff(x.columns[n], y.columns[n]);
      assert AlterColumn(t, x.columns[n], y.columns[n]) in ops <==>
             Needed(AlterColumn(t, x.columns[n], y.columns[n]), e, a);
    }
    forall n | n in x.indexes && n in y.indexes
      ensures CreateIndex(t, x.indexes[n]) in ops <==> !AlikeIndexes(x.indexes[n], y.indexes[n])
    {
      IndexesEqualIff(x.indexes[n], y.indexes[n]);
      assert CreateIndex(t, x.indexes[n]) in ops <==> Needed(CreateIndex(t, x.indexes[n]), e, a);
    }
    forall n | n in x.constraints && n in y.constraints
      ensures CreateConstraint(t, x.constraints[n]) in ops <==> !AlikeConstraints(x.constraints[n], y.constraints[n])
    {
      ConstraintsEqualIff(x.constraints[n], y.constraints[n]);
      assert CreateConstraint(t, x.constraints[n]) in ops <==> Needed(CreateConstraint(t, x.constraints[n]), e, a);
    }
  }

  lemma NeededMeansDifferent(op: Operation, e: Tables, a: Tables)
    requires Needed(op, e, a)
    ensures !Equivalent(Shapes(a), Shapes(e))
  {
    if op.table in e && op.table in a {
      NeededShapesDiffer(op, ShapeOf(e[op.table]), ShapeOf(a[op.table]));
      assert Shapes(a)[op.table] == ShapeOf(a[op.table]) && Shapes(e)[op.table] == ShapeOf(e[op.table]);
    } else {
      assert op.table in Shapes(a) <==> op.table in a;
      assert op.table in Shapes(e) <==> op.table in e;
    }
  }

  lemma NeededShapesDiffer(op: Operation, e: TableShape, a: TableShape)
    requires NeededInTable(op, e, a)
    ensures !SameShape(a, e)
  {
    if NeededColumn(op, e.columns, a.columns) {
      NeededColumnDiffers(op, e.columns, a.columns);
    } else if NeededIndex(op, e.indexes, a.indexes) {
      NeededIndexDiffers(op, e.indexes, a.indexes);
    } else {
      NeededConstraintDiffers(op, e.constraints, a.constraints);
    }
  }

  lemma NeededColumnDiffers(op: Operation, e: map<string, Column>, a: map<string, Column>)
    requires NeededColumn(op, e, a)
    ensures !SameEntries(a, e, ColumnsEqual)
  {
    var n := op.column.name;
    assert n in e && n in a ==> !ColumnsEqual(a[n], e[n]);
    assert n in e.Keys <==> n in e;
    assert n in a.Keys <==> n in a;
  }

  lemma NeededIndexDiffers(op: Operation, e: map<string, Index>, a: map<string, Index>)
    requires NeededIndex(op, e, a)
    ensures !SameEntries(a, e, IndexesEqual)
  {
    var n := op.index.name;
    assert n in e && n in a ==> !IndexesEqual(a[n], e[n]);
    assert n in e.Keys <==> n in e;
    assert n in a.Keys <==> n in a;
  }

  lemma NeededConstraintDiffers(op: Operation, e: map<string, Constraint>, a: map<string, Constraint>)
    requires NeededConstraint(op, e, a)
    ensures !SameEntries(a, e, ConstraintsEqual)
  {
    var n := op.con.name;
    assert n in e && n in a ==> !ConstraintsEqual(a[n], e[n]);
    assert n in e.Keys <==> n in e;
    assert n in a.Keys <==> n in a;
  }

  /** The same schemas, with tables, columns, indexes and constraints in any other order, give the same list. */
  lemma CompareForgetsOrder(e: Schema, e': Schema, a: Schema, a': Schema, ops: seq<Operation>, ops': seq<Operation>)
    requires RearrangedSchema(e, e') && RearrangedSchema(a, a')
    requires IsDiff(ops, SortedTables(e), SortedTables(a)) && IsDiff(ops', SortedTables(e'), SortedTables(a'))
    ensures ops == ops'
  {
    SortSchemaForgetsOrder(e, e');
    SortSchemaForgetsOrder(a, a');
    DiffUnique(ops, ops', SortedTables(e), SortedTables(a));
  }

  /** The clone Compare sorts says the same as the schema it was given. */
  lemma SortedTablesSayTheSame(s: Schema)
    ensures Shapes(SortedTables(s)) == CatalogOf(s)
  {
    SortKeepsCatalog(s);
  }

  // -------------------------------------------------------------- every step is possible

  /** Indexes and constraints mention columns of their own table only. */
  predicate WellFormed(e: Catalog) {
    forall t :: t in e ==> WellFormedTable(e[t])
  }

  predicate WellFormedTable(s: TableShape) {
    && (forall n :: n in s.indexes ==> HasColumns(s, s.indexes[n].columns))
    && (forall n :: n in s.constraints ==> HasColumns(s, s.constraints[n].columns))
  }

  predicate HasColumns(s: TableShape, columns: seq<string>) {
    forall n :: n in columns ==> n in s.columns
  }

  /** The operation finds what it needs. */
  predicate Fits(op: Operation, c: Catalog) {
    match op
    case CreateTable(t, def) => t !in c && WellFormedTable(ShapeOf(def))
    case _ => op.table in c && FitsTable(op, c[op.table])
  }

  predicate FitsTable(op: Operation, s: TableShape) {
    match op
    case CreateTable(_, _) => false
    case DropTable(_, _) => true
    case AddColumn(_, col) => col.name !in s.columns
    case DropColumn(_, col) => col.name in s.columns
    case AlterColumn(_, col, _) => col.name in s.columns
    case CreateIndex(_, i) => HasColumns(s, i.columns)
    case DropIndex(_, i) => i.name in s.indexes
    case CreateConstraint(_, con) => HasColumns(s, con.columns)
    case DropConstraint(_, con) => con.name in s.constraints
  }

  /** Operations at positions before k are those that sort before the one at k. */
  lemma DoneBefore(ops: seq<Operation>, k: nat, op: Operation)
    requires Ascending(ops) && k < |ops| && op in ops
    ensures OpLess(op, ops[k]) ==> op in ops[..k]
    ensures op in ops[..k] ==> OpLess(op, ops[k])
  {
    var j :| 0 <= j < |ops| && ops[j] == op;
    if OpLess(op, ops[k]) {
      OpLessAsymmetric(op, ops[k]);
      assert j < k;
      assert ops[..k][j] == op;
    }
  }

  lemma TargetNotDone(ops: seq<Operation>, k: nat, e: Tables, a: Tables)
    requires IsDiff(ops, e, a) && k < |ops|
    ensures Target(ops[k]) !in Targets(ops[..k])
  {
    if Target(ops[k]) in Targets(ops[..k]) {
      var op :| op in ops[..k] && Target(op) == Target(ops[k]);
      assert op in ops;
      DoneBefore(ops, k, op);
      SameTargetSameOp(op, ops[k], e, a);
      OpLessAsymmetric(op, op);
    }
  }

  /** No two operations of a diff write the same slot. */
  lemma SameTargetSameOp(x: Operation, y: Operation, e: Tables, a: Tables)
    requires Needed(x, e, a) && Needed(y, e, a) && Target(x) == Target(y)
    ensures x == y
  {
    if !Target(x).OnTable? { SameSlotSameOp(x, y, ShapeOf(e[x.table]), ShapeOf(a[x.table])); }
  }

  lemma SameSlotSameOp(x: Operation, y: Operation, e: TableShape, a: TableShape)
    requires NeededInTable(x, e, a) && NeededInTable(y, e, a) && Target(x) == Target(y)
    ensures x == y
  {
  }

  /** At its turn every operation of the sorted list can run, because add sorts before create before drop. */
  lemma EveryStepFits(ops: seq<Operation>, k: nat, e: Tables, a: Tables, c: Catalog)
    requires IsDiff(ops, e, a) && k < |ops| && Equivalent(c, Shapes(a)) && WellFormed(Shapes(e))
    ensures Fits(ops[k], ApplyAll(ops[..k], c))
  {
    PrefixState(ops, k, e, a, c);
    TargetNotDone(ops, k, e, a);
    var op, d := ops[k], Targets(ops[..k]);
    var t := op.table;
    assert op in ops && Needed(op, e, a);
    if t in e && t in a {
      assert SameShape(c[t], Shapes(a)[t]);
      assert OnTable(t) !in d;
      StepFits(ops, k, e, a, c[t]);
    }
  }

  lemma StepFits(ops: seq<Operation>, k: nat, e: Tables, a: Tables, c: TableShape)
    requires IsDiff(ops, e, a) && k < |ops| && ops[k].table in e && ops[k].table in a
    requires Needed(ops[k], e, a) && Target(ops[k]) !in Targets(ops[..k])
    requires SameShape(c, ShapeOf(a[ops[k].table])) && WellFormedTable(ShapeOf(e[ops[k].table]))
    ensures FitsTable(ops[k], MixShape(ops[k].table, ShapeOf(e[ops[k].table]), c, Targets(ops[..k])))
  {
    var op, d := ops[k], Targets(ops[..k]);
    if op.CreateIndex? || op.CreateConstraint? {
      CreationFits(ops, k, e, a, c);
    } else {
      UntouchedFits(op, ShapeOf(e[op.table]), ShapeOf(a[op.table]), c, d);
    }
  }

  /** What is added is not there and what goes is: the slot is as it was. */
  lemma UntouchedFits(op: Operation, e: TableShape, a: TableShape, c: TableShape, d: set<Slot>)
    requires NeededInTable(op, e, a) && Target(op) !in d && SameShape(c, a) && !op.CreateIndex? && !op.CreateConstraint?
    ensures FitsTable(op, MixShape(op.table, e, c, d))
  {
    if op.DropIndex? { UntouchedIndex(op, e, a, c, d); }
    else if op.DropConstraint? { UntouchedConstraint(op, e, a, c, d); }
    else { UntouchedColumn(op, e, a, c, d); }
  }

  lemma UntouchedColumn(op: Operation, e: TableShape, a: TableShape, c: TableShape, d: set<Slot>)
    requires NeededColumn(op, e.columns, a.columns) && Target(op) !in d && c.columns.Keys == a.columns.Keys
    ensures FitsTable(op, MixShape(op.table, e, c, d))
  {
    assert op.column.name !in ColumnSlots(op.table, d);
    assert op.column.name in c.columns.Keys <==> op.column.name in a.columns;
  }

  lemma UntouchedIndex(op: Operation, e: TableShape, a: TableShape, c: TableShape, d: set<Slot>)
    requires op.DropIndex? && NeededIndex(op, e.indexes, a.indexes) && Target(op) !in d &&
             c.indexes.Keys == a.indexes.Keys
    ensures FitsTable(op, MixShape(op.table, e, c, d))
  {
    assert op.index.name !in IndexSlots(op.table, d);
    assert op.index.name in c.indexes.Keys;
  }

  lemma UntouchedConstraint(op: Operation, e: TableShape, a: TableShape, c: TableShape, d: set<Slot>)
    requires op.DropConstraint? && NeededConstraint(op, e.constraints, a.constraints) && Target(op) !in d &&
             c.constraints.Keys == a.constraints.Keys
    ensures FitsTable(op, MixShape(op.table, e, c, d))
  {
    assert op.con.name !in ConstraintSlots(op.table, d);
    assert op.con.name in c.constraints.Keys;
  }

  lemma CreationFits(ops: seq<Operation>, k: nat, e: Tables, a: Tables, c: TableShape)
    requires IsDiff(ops, e, a) && k < |ops| && ops[k].table in e && ops[k].table in a &&
             (ops[k].CreateIndex? || ops[k].CreateConstraint?)
    requires Needed(ops[k], e, a) && SameShape(c, ShapeOf(a[ops[k].table])) && WellFormedTable(ShapeOf(e[ops[k].table]))
    ensures FitsTable(ops[k], MixShape(ops[k].table, ShapeOf(e[ops[k].table]), c, Targets(ops[..k])))
  {
    var op, d := ops[k], Targets(ops[..k]);
    var m, columns := MixShape(op.table, ShapeOf(e[op.table]), c, d), if op.CreateIndex? then op.index.columns
        else op.con.columns;
    forall n | n in columns ensures n in m.columns {
      ColumnThere(ops, k, e, a, n);
      assert n in ColumnSlots(op.table, d) <==> OnColumn(op.table, n) in d;
      assert n in c.columns <==> n in ShapeOf(a[op.table]).columns;
    }
  }

  lemma ColumnThere(ops: seq<Operation>, k: nat, e: Tables, a: Tables, n: string)
    requires IsDiff(ops, e, a) && k < |ops| && (ops[k].CreateIndex? || ops[k].CreateConstraint?)
    requires ops[k].table in e && ops[k].table in a && n in ShapeOf(e[ops[k].table]).columns
    ensures n in ShapeOf(a[ops[k].table]).columns || OnColumn(ops[k].table, n) in Targets(ops[..k])
  {
    var t := ops[k].table;
    KeyedByName(e[t]);
    if n !in ShapeOf(a[t]).columns {
      var add := AddColumn(t, ShapeOf(e[t]).columns[n]);
      assert Needed(add, e, a);
      DoneBefore(ops, k, add);
      assert Target(add) in Targets(ops[..k]);
    }
  }
}
