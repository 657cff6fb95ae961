/** migrate/migrate.go: the inverse of an operation list, and when it undoes it. */
module DiffInverse {
  import opened SchemaModel
  import opened SchemaDiff
  import opened DiffSemantics
  import opened Wrappers

  /** invertDiff on one operation; a dropped table cannot be rebuilt and yields nothing. */
  function InvertOp(op: Operation): seq<Operation> {
    match op
    case CreateTable(t, _) => [DropTable(t, None)]
    case DropTable(_, _) => []
    case _ => [Opposite(op)]
  }

  function Opposite(op: Operation): Operation {
    match op
    case CreateTable(_, _) => op
    case DropTable(_, _) => op
    case AddColumn(t, c) => DropColumn(t, c)
    case DropColumn(t, c) => AddColumn(t, c)
    case AlterColumn(t, c, p) => AlterColumn(t, p, c)
    case CreateIndex(t, i) => DropIndex(t, i)
    case DropIndex(t, i) => CreateIndex(t, i)
    case CreateConstraint(t, c) => DropConstraint(t, c)
    case DropConstraint(t, c) => CreateConstraint(t, c)
  }

  function Invert(ops: seq<Operation>): seq<Operation> {
    if ops == [] then [] else Invert(ops[1..]) + InvertOp(ops[0])
  }

  method InvertDiff(diff: Option<seq<Operation>>) returns (r: Option<seq<Operation>>)
    ensures r == if diff.None? then None else Some(Invert(diff.value))
  {
    if diff.None? { return None; }
    var ops := diff.value;
    var out: seq<Operation> := [];
    var i := |ops| - 1;
    while i >= 0
      invariant -1 <= i < |ops| && out == Invert(ops[i + 1..])
    {
      var op := ops[i];
      assert ops[i..][1..] == ops[i + 1..];
      match op {
        case CreateTable(t, _) => out := out + [DropTable(t, None)];
        case DropTable(_, _) =>
        case AddColumn(t, c) => out := out + [DropColumn(t, c)];
        case DropColumn(t, c) => out := out + [AddColumn(t, c)];
        case AlterColumn(t, c, p) => out := out + [AlterColumn(t, p, c)];
        case CreateIndex(t, x) => out := out + [DropIndex(t, x)];
        case DropIndex(t, x) => out := out + [CreateIndex(t, x)];
        case CreateConstraint(t, c) => out := out + [DropConstraint(t, c)];
        case DropConstraint(t, c) => out := out + [CreateConstraint(t, c)];
      }
      assert out == Invert(ops[i..]);
      i := i - 1;
    }
    assert ops[0..] == ops;
    r := Some(out);
  }

  // ------------------------------------------------------------ lists that can be undone

  /** The operation overwrites nothing and removes exactly what it names. */
  predicate Clean(op: Operation, c: Catalog) {
    match op
    case CreateTable(t, _) => t !in c
    case DropTable(_, _) => false
    case _ => op.table in c && CleanInTable(op, c[op.table])
  }

  predicate CleanInTable(op: Operation, s: TableShape) {
    match op
    case CreateTable(_, _) => false
    case DropTable(_, _) => false
    case AddColumn(_, c) => c.name !in s.columns
    case DropColumn(_, c) => c.name in s.columns && s.columns[c.name] == c
    case AlterColumn(_, c, p) => p.name == c.name && c.name in s.columns && s.columns[c.name] == p
    case CreateIndex(_, i) => i.name !in s.indexes
    case DropIndex(_, i) => i.name in s.indexes && s.indexes[i.name] == i
    case CreateConstraint(_, c) => c.name !in s.constraints
    case DropConstraint(_, c) => c.name in s.constraints && s.constraints[c.name] == c
  }

  lemma CleanInTableUndone(op: Operation, s: TableShape)
    requires CleanInTable(op, s)
    ensures ApplyInTable(Opposite(op), ApplyInTable(op, s)) == s
  {
    var r := ApplyInTable(Opposite(op), ApplyInTable(op, s));
    assert r.columns == s.columns;
    assert r.indexes == s.indexes;
    assert r.constraints == s.constraints;
  }

  lemma CleanUndone(op: Operation, c: Catalog)
    requires Clean(op, c)
    ensures ApplyAll(InvertOp(op), Apply(op, c)) == c
  {
    assert InvertOp(op)[1..] == [];
    var r := Apply(InvertOp(op)[0], Apply(op, c));
    assert ApplyAll(InvertOp(op), Apply(op, c)) == r;
    if op.CreateTable? {
      assert r == c;
    } else {
      CleanInTableUndone(op, c[op.table]);
      assert r == c;
    }
  }

  /** The diff drops no table and replaces no index or constraint of the same name. */
  predicate Reversible(ops: seq<Operation>, a: Catalog) {
    forall op :: op in ops ==> !Irreversible(op, a)
  }

  predicate Irreversible(op: Operation, a: Catalog) {
    || op.DropTable?
    || (op.CreateIndex? && op.table in a && op.index.name in a[op.table].indexes)
    || (op.CreateConstraint? && op.table in a && op.con.name in a[op.table].constraints)
  }

  /** Each step of a reversible diff is clean at its moment. */
  lemma CleanAt(ops: seq<Operation>, k: nat, e: Tables, a: Tables)
    requires IsDiff(ops, e, a) && k < |ops| && Reversible(ops, Shapes(a))
    ensures Clean(ops[k], ApplyAll(ops[..k], Shapes(a)))
  {
    PrefixState(ops, k, e, a, Shapes(a));
    TargetNotDone(ops, k, e, a);
    var op, d := ops[k], Targets(ops[..k]);
    var t := op.table;
    assert op in ops && Needed(op, e, a) && !Irreversible(op, Shapes(a));
    if !op.CreateTable? {
      assert OnTable(t) !in d;
      KeyedByName(e[t]);
      KeyedByName(a[t]);
      CleanInMix(op, ShapeOf(e[t]), ShapeOf(a[t]), d);
    }
  }

  lemma CleanInMix(op: Operation, e: TableShape, a: TableShape, d: set<Slot>)
    requires NeededInTable(op, e, a) && Target(op) !in d
    requires op.AlterColumn? ==> op.previous.name == op.column.name
    requires op.CreateIndex? ==> op.index.name !in a.indexes
    requires op.CreateConstraint? ==> op.con.name !in a.constraints
    ensures CleanInTable(op, MixShape(op.table, e, a, d))
  {
    assert op.AddColumn? || op.DropColumn? || op.AlterColumn? ==> op.column.name !in ColumnSlots(op.table, d);
    assert op.CreateIndex? || op.DropIndex? ==> op.index.name !in IndexSlots(op.table, d);
    assert op.CreateConstraint? || op.DropConstraint? ==> op.con.name !in ConstraintSlots(op.table, d);
  }

  lemma {:induction false} SuffixUndone(ops: seq<Operation>, k: nat, e: Tables, a: Tables)
    requires IsDiff(ops, e, a) && k <= |ops| && Reversible(ops, Shapes(a))
    ensures ApplyAll(Invert(ops[k..]), ApplyAll(ops, Shapes(a))) == ApplyAll(ops[..k], Shapes(a))
    decreases |ops| - k
  {
    if k == |ops| {
      assert ops[..k] == ops;
    } else {
      SuffixUndone(ops, k + 1, e, a);
      CleanAt(ops, k, e, a);
      var before := ApplyAll(ops[..k], Shapes(a));
      OneMoreApplied(ops, k + 1, Shapes(a));
      assert ops[k..][1..] == ops[k + 1..];
      ApplyAllSplit(Invert(ops[k + 1..]), InvertOp(ops[k]), ApplyAll(ops, Shapes(a)));
      CleanUndone(ops[k], before);
    }
  }

  // ------------------------------------------------- and those that cannot

  predicate NoIndex(c: Catalog, t: string, n: string) {
    t in c ==> n !in c[t].indexes
  }

  predicate NoConstraint(c: Catalog, t: string, n: string) {
    t in c ==> n !in c[t].constraints
  }

  lemma {:induction false} TableStaysGone(ops: seq<Operation>, c: Catalog, t: string)
    requires t !in c && forall op :: op in ops ==> !op.CreateTable?
    ensures t !in ApplyAll(ops, c)
  {
    if ops != [] {
      assert ops[0] in ops;
      TableStaysGone(ops[1..], Apply(ops[0], c), t);
    }
  }

  lemma {:induction false} IndexStaysGone(ops: seq<Operation>, c: Catalog, t: string, n: string)
    requires NoIndex(c, t, n)
    requires forall op :: op in ops ==> !op.CreateTable? && !(op.CreateIndex? && op.table == t && op.index.name == n)
    ensures NoIndex(ApplyAll(ops, c), t, n)
  {
    if ops != [] {
      assert ops[0] in ops;
      IndexStaysGone(ops[1..], Apply(ops[0], c), t, n);
    }
  }

  lemma {:induction false} ConstraintStaysGone(ops: seq<Operation>, c: Catalog, t: string, n: string)
    requires NoConstraint(c, t, n)
    requires forall op :: op in ops ==> !op.CreateTable? && !(op.CreateConstraint? && op.table == t && op.con.name == n)
    ensures NoConstraint(ApplyAll(ops, c), t, n)
  {
    if ops != [] {
      assert ops[0] in ops;
      ConstraintStaysGone(ops[1..], Apply(ops[0], c), t, n);
    }
  }

  /** What an inverted list consists of. */
  lemma {:induction false} InvertMembers(ops: seq<Operation>, x: Operation)
    ensures x in Invert(ops) <==> exists op :: op in ops && x in InvertOp(op)
  {
    if ops != [] {
      InvertMembers(ops[1..], x);
      assert ops == [ops[0]] + ops[1..];
    }
  }

  /** An operation that names slot s and is in the inverse of a diff comes from the diff's only operation on s. */
  lemma InverseOnSlot(ops: seq<Operation>, e: Tables, a: Tables, op: Operation, x: Operation)
    requires IsDiff(ops, e, a) && op in ops && x in Invert(ops) && Target(x) == Target(op) && !op.CreateTable? &&
             !op.DropTable?
    ensures x == Opposite(op)
  {
    InvertMembers(ops, x);
    var y :| y in ops && x in InvertOp(y);
    assert Needed(y, e, a) && Needed(op, e, a);
    OppositeTarget(y, e, a, x);
    SameTargetSameOp(y, op, e, a);
  }

  /** Undoing an operation of a diff writes where the operation wrote. */
  lemma OppositeTarget(y: Operation, e: Tables, a: Tables, x: Operation)
    requires Needed(y, e, a) && x in InvertOp(y)
    ensures Target(x) == Target(y) && (y.CreateTable? || x == Opposite(y))
  {
    if y.AlterColumn? { KeyedByName(e[y.table]); KeyedByName(a[y.table]); }
  }

  lemma InverseCreatesNoTable(ops: seq<Operation>, x: Operation)
    requires x in Invert(ops)
    ensures !x.CreateTable?
  {
    InvertMembers(ops, x);
  }

  lemma SplitAt(ops: seq<Operation>, x: Operation) returns (p: seq<Operation>, q: seq<Operation>)
    requires x in ops
    ensures ops == p + [x] + q && forall y :: y in q ==> y in ops
  {
    var i :| 0 <= i < |ops| && ops[i] == x;
    p, q := ops[..i], ops[i + 1..];
  }

  /** The list up to x, x, and the rest. */
  lemma ApplyAllAround(ops: seq<Operation>, p: seq<Operation>, x: Operation, q: seq<Operation>, c: Catalog)
    requires ops == p + [x] + q
    ensures ApplyAll(ops, c) == ApplyAll(q, Apply(x, ApplyAll(p, c)))
  {
    ApplyAllSplit(p + [x], q, c);
    ApplyAllSplit(p, [x], c);
    assert [x][1..] == [];
  }

  /** Behind the drop of op's index no operation of the inverse brings it back. */
  lemma IndexNotRecreated(ops: seq<Operation>, e: Tables, a: Tables, op: Operation, y: Operation)
    requires IsDiff(ops, e, a) && op in ops && op.CreateIndex? && y in Invert(ops)
    ensures !y.CreateTable? && !(y.CreateIndex? && y.table == op.table && y.index.name == op.index.name)
  {
    InverseCreatesNoTable(ops, y);
    if Target(y) == Target(op) { InverseOnSlot(ops, e, a, op, y); }
  }

  lemma ReplacedIndexLost(ops: seq<Operation>, e: Tables, a: Tables, op: Operation, c: Catalog)
    requires IsDiff(ops, e, a) && op in ops && op.CreateIndex?
    ensures NoIndex(ApplyAll(Invert(ops), c), op.table, op.index.name)
  {
    var x := DropIndex(op.table, op.index);
    InvertMembers(ops, x);
    assert x in InvertOp(op);
    var p, q := SplitAt(Invert(ops), x);
    forall y | y in q
      ensures !y.CreateTable? && !(y.CreateIndex? && y.table == op.table && y.index.name == op.index.name)
    {
      IndexNotRecreated(ops, e, a, op, y);
    }
    ApplyAllAround(Invert(ops), p, x, q, c);
    IndexStaysGone(q, Apply(x, ApplyAll(p, c)), op.table, op.index.name);
  }

  lemma ConstraintNotRecreated(ops: seq<Operation>, e: Tables, a: Tables, op: Operation, y: Operation)
    requires IsDiff(ops, e, a) && op in ops && op.CreateConstraint? && y in Invert(ops)
    ensures !y.CreateTable? && !(y.CreateConstraint? && y.table == op.table && y.con.name == op.con.name)
  {
    InverseCreatesNoTable(ops, y);
    if Target(y) == Target(op) { InverseOnSlot(ops, e, a, op, y); }
  }

  lemma ReplacedConstraintLost(ops: seq<Operation>, e: Tables, a: Tables, op: Operation, c: Catalog)
    requires IsDiff(ops, e, a) && op in ops && op.CreateConstraint?
    ensures NoConstraint(ApplyAll(Invert(ops), c), op.table, op.con.name)
  {
    var x := DropConstraint(op.table, op.con);
    InvertMembers(ops, x);
    assert x in InvertOp(op);
    var p, q := SplitAt(Invert(ops), x);
    forall y | y in q
      ensures !y.CreateTable? && !(y.CreateConstraint? && y.table == op.table && y.con.name == op.con.name)
    {
      ConstraintNotRecreated(ops, e, a, op, y);
    }
    ApplyAllAround(Invert(ops), p, x, q, c);
    ConstraintStaysGone(q, Apply(x, ApplyAll(p, c)), op.table, op.con.name);
  }

  lemma DroppedTableLost(ops: seq<Operation>, e: Tables, a: Tables, op: Operation, c: Catalog)
    requires IsDiff(ops, e, a) && op in ops && op.DropTable? && c.Keys == a.Keys
    ensures op.table !in ApplyAll(Invert(ops), ApplyAll(ops, c))
  {
    PrefixState(ops, |ops|, e, a, c);
    assert ops[..|ops|] == ops;
    TablesTargeted(ops, e, a, op.table);
    assert Needed(op, e, a);
    forall x | x in Invert(ops) ensures !x.CreateTable? { InverseCreatesNoTable(ops, x); }
    TableStaysGone(Invert(ops), ApplyAll(ops, c), op.table);
  }

  /** An irreversible diff loses a name for good. */
  lemma IrreversibleLosesName(ops: seq<Operation>, e: Tables, a: Tables, c: Catalog)
    requires IsDiff(ops, e, a) && Equivalent(c, Shapes(a)) && !Reversible(ops, Shapes(a))
    ensures !Equivalent(ApplyAll(Invert(ops), ApplyAll(ops, c)), c)
  {
    var op :| op in ops && Irreversible(op, Shapes(a));
    assert Needed(op, e, a);
    var end := ApplyAll(Invert(ops), ApplyAll(ops, c));
    assert op.table in c && SameShape(c[op.table], Shapes(a)[op.table]);
    if op.DropTable? {
      DroppedTableLost(ops, e, a, op, c);
    } else if op.CreateIndex? {
      ReplacedIndexLost(ops, e, a, op, ApplyAll(ops, c));
      assert op.index.name in c[op.table].indexes.Keys;
    } else {
      ReplacedConstraintLost(ops, e, a, op, ApplyAll(ops, c));
      assert op.con.name in c[op.table].constraints.Keys;
    }
  }

  /** The inverse restores the old schema exactly, name by name, if and only if the diff is reversible. */
  lemma InverseRestoresIffReversible(ops: seq<Operation>, e: Tables, a: Tables)
    requires IsDiff(ops, e, a)
    ensures ApplyAll(Invert(ops), ApplyAll(ops, Shapes(a))) == Shapes(a) <==> Reversible(ops, Shapes(a))
  {
    EquivalenceRelation(Shapes(a), Shapes(a), Shapes(a));
    if Reversible(ops, Shapes(a)) {
      SuffixUndone(ops, 0, e, a);
      assert ops[0..] == ops && ops[..0] == [];
    } else {
      IrreversibleLosesName(ops, e, a, Shapes(a));
    }
  }

  /**
   * From a schema Compare cannot tell from the old one, the inverse leads back to one it cannot tell from it, under the
   * same condition.
   */
  lemma InverseRestoresEquivalentIff(ops: seq<Operation>, e: Tables, a: Tables, c: Catalog)
    requires IsDiff(ops, e, a) && Equivalent(c, Shapes(a))
    ensures Equivalent(ApplyAll(Invert(ops), ApplyAll(ops, c)), c) <==> Reversible(ops, Shapes(a))
  {
    if Reversible(ops, Shapes(a)) {
      InverseRestoresIffReversible(ops, e, a);
      ApplyAllKeepsEquivalence(ops, c, Shapes(a));
      ApplyAllKeepsEquivalence(Invert(ops), ApplyAll(ops, c), ApplyAll(ops, Shapes(a)));
      EquivalenceRelation(c, Shapes(a), c);
      EquivalenceRelation(ApplyAll(Invert(ops), ApplyAll(ops, c)), Shapes(a), c);
    } else {
      IrreversibleLosesName(ops, e, a, c);
    }
  }

  // --------------------------------------------- the inverse list is the reverse diff

  predicate NoTableOps(ops: seq<Operation>) {
    forall op :: op in ops ==> !op.CreateTable? && !op.DropTable?
  }

  lemma {:induction false} InvertAppend(p: seq<Operation>, q: seq<Operation>)
    ensures Invert(p + q) == Invert(q) + Invert(p)
  {
    if p == [] {
      assert p + q == q;
    } else {
      assert (p + q)[1..] == p[1..] + q;
      InvertAppend(p[1..], q);
    }
  }

  lemma {:induction false} InvertTwice(ops: seq<Operation>)
    requires NoTableOps(ops)
    ensures Invert(Invert(ops)) == ops
  {
    if ops != [] {
      assert ops[0] in ops;
      assert NoTableOps(ops[1..]) by { assert forall op :: op in ops[1..] ==> op in ops; }
      InvertTwice(ops[1..]);
      InvertAppend(Invert(ops[1..]), InvertOp(ops[0]));
      assert InvertOp(ops[0])[1..] == [];
      assert Invert(InvertOp(ops[0])) == [ops[0]];
      assert ops == [ops[0]] + ops[1..];
    }
  }

  /** Namesakes on both sides that are equal: what a reversible diff leaves. */
  predicate NoReplacement(e: TableShape, a: TableShape) {
    && (forall n :: n in e.indexes && n in a.indexes ==> IndexesEqual(e.indexes[n], a.indexes[n]))
    && (forall n :: n in e.constraints && n in a.constraints ==> ConstraintsEqual(e.constraints[n], a.constraints[n]))
  }

  lemma ReversibleReplacesNothing(ops: seq<Operation>, e: Tables, a: Tables, t: string)
    requires IsDiff(ops, e, a) && Reversible(ops, Shapes(a)) && t in e && t in a
    ensures NoReplacement(ShapeOf(e[t]), ShapeOf(a[t]))
  {
    KeyedByName(e[t]);
    var x, y := ShapeOf(e[t]), ShapeOf(a[t]);
    forall n | n in x.indexes && n in y.indexes ensures IndexesEqual(x.indexes[n], y.indexes[n]) {
      var op := CreateIndex(t, x.indexes[n]);
      assert Irreversible(op, Shapes(a));
      assert !Needed(op, e, a);
    }
    forall n | n in x.constraints && n in y.constraints ensures ConstraintsEqual(x.constraints[n], y.constraints[n]) {
      var op := CreateConstraint(t, x.constraints[n]);
      assert Irreversible(op, Shapes(a));
      assert !Needed(op, e, a);
    }
  }

  lemma OppositeInTable(x: Operation, e: TableShape, a: TableShape)
    requires NoReplacement(e, a)
    requires x.AlterColumn? ==> (x.previous.name in e.columns ==> e.columns[x.previous.name].name == x.previous.name)
    requires x.AlterColumn? ==> (x.column.name in a.columns ==> a.columns[x.column.name].name == x.column.name)
    requires x.AlterColumn? ==> (x.previous.name in a.columns ==> a.columns[x.previous.name].name == x.previous.name)
    requires x.AlterColumn? ==> (x.column.name in e.columns ==> e.columns[x.column.name].name == x.column.name)
    ensures NeededInTable(x, a, e) <==> NeededInTable(Opposite(x), e, a)
  {
    EqualitiesAreEquivalences();
  }

  lemma OppositeNeeded(x: Operation, e: Tables, a: Tables, ops: seq<Operation>)
    requires IsDiff(ops, e, a) && Reversible(ops, Shapes(a)) && NoTableOps(ops)
    ensures Needed(x, a, e) <==> Opposite(x) in ops
  {
    if x.CreateTable? || x.DropTable? {
      var t := x.table;
      assert x !in ops;
      if t in a && t !in e { assert Needed(DropTable(t, Some(a[t])), e, a); }
      if t in e && t !in a { assert Needed(CreateTable(t, e[t]), e, a); }
    } else if x.table in e && x.table in a {
      KeyedByName(e[x.table]);
      KeyedByName(a[x.table]);
      ReversibleReplacesNothing(ops, e, a, x.table);
      OppositeInTable(x, ShapeOf(e[x.table]), ShapeOf(a[x.table]));
    }
  }

  predicate NoRepeats(ops: seq<Operation>) {
    forall i, j :: 0 <= i < j < |ops| ==> ops[i] != ops[j]
  }

  lemma {:induction false} CountOne(ops: seq<Operation>, x: Operation)
    requires NoRepeats(ops)
    ensures multiset(ops)[x] == if x in ops then 1 else 0
  {
    if ops != [] {
      var n := |ops| - 1;
      CountOne(ops[..n], x);
      assert ops == ops[..n] + [ops[n]];
    }
  }

  lemma InvertedMember(ops: seq<Operation>, x: Operation)
    requires NoTableOps(ops)
    ensures x in Invert(ops) <==> Opposite(x) in ops && !x.CreateTable? && !x.DropTable?
  {
    InvertMembers(ops, x);
    if Opposite(x) in ops && !x.CreateTable? && !x.DropTable? { assert x in InvertOp(Opposite(x)); }
  }

  lemma NoRepeatsSnoc(r: seq<Operation>, x: Operation)
    requires NoRepeats(r) && x !in r
    ensures NoRepeats(r + [x])
  {
  }

  lemma {:induction false} InvertKeepsNoRepeats(ops: seq<Operation>)
    requires NoRepeats(ops) && NoTableOps(ops)
    ensures NoRepeats(Invert(ops))
  {
    if ops != [] {
      var first, rest := ops[0], ops[1..];
      assert first in ops && forall op :: op in rest ==> op in ops;
      InvertKeepsNoRepeats(rest);
      InvertedMember(rest, Opposite(first));
      assert first !in rest;
      NoRepeatsSnoc(Invert(rest), Opposite(first));
    }
  }

  /** Without table operations the inverse of Compare(E, A) holds exactly the operations of Compare(A, E). */
  lemma InverseIsReverseDiff(ops: seq<Operation>, back: seq<Operation>, e: Tables, a: Tables)
    requires IsDiff(ops, e, a) && IsDiff(back, a, e) && Reversible(ops, Shapes(a)) && NoTableOps(ops)
    ensures multiset(Invert(ops)) == multiset(back)
  {
    AscendingNoRepeats(ops);
    AscendingNoRepeats(back);
    InvertKeepsNoRepeats(ops);
    forall x ensures multiset(Invert(ops))[x] == multiset(back)[x] {
      InvertedMember(ops, x);
      CountOne(Invert(ops), x);
      CountOne(back, x);
      OppositeNeeded(x, e, a, ops);
      assert x in ops ==> !x.CreateTable? && !x.DropTable?;
    }
  }

  lemma AscendingNoRepeats(ops: seq<Operation>)
    requires Ascending(ops)
    ensures NoRepeats(ops)
  {
    forall i, j | 0 <= i < j < |ops| ensures ops[i] != ops[j] {
      OpLessAsymmetric(ops[i], ops[j]);
    }
  }
}
