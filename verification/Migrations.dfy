/** migrate/migrate.go: generating, writing, running and reverting migration files. */
module Migrations {
  import opened Text
  import opened Sorting
  import opened SchemaModel
  import opened SchemaDiff
  import opened DiffSemantics
  import opened DiffInverse
  import opened MigrationRunner
  import opened Wrappers

  // ---------------------------------------------------------------------- file names

  /** fmt.Sprintf("%04d", n). */
  function Pad4(n: nat): string {
    Zeros(n) + Itoa(n)
  }

  function Zeros(n: nat): (z: string)
    ensures forall i :: 0 <= i < |z| ==> z[i] == '0'
  {
    if n < 10 then "000" else if n < 100 then "00" else if n < 1000 then "0" else ""
  }

  function MigrationName(n: nat): string {
    Pad4(n) + "_schema"
  }

  function UpFile(n: nat): string {
    MigrationName(n) + ".up.sql"
  }

  /** The numeral of a name is all digits and denotes n. */
  lemma Pad4Value(n: nat)
    ensures (forall i :: 0 <= i < |Pad4(n)| ==> IsDigit(Pad4(n)[i])) && Value(Pad4(n)) == n
  {
    ValueOfItoa(n);
    ZerosBefore(Zeros(n), Itoa(n));
  }

  lemma {:induction false} ZerosBefore(z: string, s: string)
    requires (forall i :: 0 <= i < |z| ==> z[i] == '0') && (forall i :: 0 <= i < |s| ==> IsDigit(s[i]))
    ensures (forall i :: 0 <= i < |z + s| ==> IsDigit((z + s)[i])) && Value(z + s) == Value(s)
  {
    if z == "" {
      assert z + s == s;
    } else {
      ZerosBefore(z[1..], s);
      LeadingZero(z[1..] + s);
      assert z + s == "0" + (z[1..] + s);
    }
  }

  lemma {:induction false} LeadingZero(s: string)
    requires forall i :: 0 <= i < |s| ==> IsDigit(s[i])
    ensures forall i :: 0 <= i < |"0" + s| ==> IsDigit(("0" + s)[i])
    ensures Value("0" + s) == Value(s)
  {
    if s == [] {
      assert ("0" + s)[..0] == [];
    } else {
      LeadingZero(s[..|s| - 1]);
      assert ("0" + s)[..|s|] == "0" + s[..|s| - 1];
    }
  }

  lemma MigrationNamesDiffer(m: nat, n: nat)
    requires UpFile(m) == UpFile(n)
    ensures m == n
  {
    assert UpFile(m)[..|UpFile(m)| - 14] == Pad4(m) && UpFile(n)[..|UpFile(n)| - 14] == Pad4(n);
    Pad4Value(m);
    Pad4Value(n);
  }

  lemma LastDigit(n: nat)
    ensures Itoa(n) == if n < 10 then [Digit(n)] else Itoa(n / 10) + [Digit(n % 10)]
  {
  }

  /** Up to 9999 the numeral has exactly four digits. */
  lemma FourDigits(n: nat)
    requires n <= 9999
    ensures Pad4(n) == [Digit(n / 1000), Digit(n / 100 % 10), Digit(n / 10 % 10), Digit(n % 10)]
  {
    var tens, hundreds, thousands := n / 10, n / 100, n / 1000;
    assert tens / 10 == hundreds && hundreds / 10 == thousands && thousands < 10;
    LastDigit(n);
    if n >= 10 { LastDigit(tens); }
    if n >= 100 { LastDigit(hundreds); }
    if n >= 1000 { LastDigit(thousands); }
  }

  function DigitAt(n: nat, k: nat): nat
    requires k < 4
  {
    if k == 0 then n / 1000 else if k == 1 then n / 100 % 10 else if k == 2 then n / 10 % 10 else n % 10
  }

  lemma DigitsSum(n: nat)
    requires n <= 9999
    ensures n == 1000 * DigitAt(n, 0) + 100 * DigitAt(n, 1) + 10 * DigitAt(n, 2) + DigitAt(n, 3)
    ensures forall k :: 0 <= k < 4 ==> DigitAt(n, k) < 10
  {
    var tens, hundreds := n / 10, n / 100;
    assert hundreds == tens / 10 && n / 1000 == hundreds / 10;
    assert n == 10 * tens + n % 10 && tens == 10 * hundreds + tens % 10 &&
        hundreds == 10 * (hundreds / 10) + hundreds % 10;
  }

  /** Of two numbers with at most four digits the smaller has the smaller first differing digit. */
  lemma FirstDifferingDigit(m: nat, n: nat) returns (k: nat)
    requires m < n <= 9999
    ensures k < 4 && DigitAt(m, k) < DigitAt(n, k) && forall j :: 0 <= j < k ==> DigitAt(m, j) == DigitAt(n, j)
  {
    DigitsSum(m);
    DigitsSum(n);
    k := if DigitAt(m, 0) != DigitAt(n, 0) then 0 else if DigitAt(m, 1) != DigitAt(n, 1) then 1
        else if DigitAt(m, 2) != DigitAt(n, 2) then 2 else 3;
  }

  lemma DigitInName(n: nat, k: nat)
    requires n <= 9999 && k < 4
    ensures |UpFile(n)| > 4 && DigitAt(n, k) < 10 && UpFile(n)[k] == Digit(DigitAt(n, k))
  {
    FourDigits(n);
    assert UpFile(n)[k] == Pad4(n)[k];
  }

  lemma FourDigitOrder(m: nat, n: nat)
    requires m < n <= 9999
    ensures Less(UpFile(m), UpFile(n))
  {
    var k := FirstDifferingDigit(m, n);
    var a, b := UpFile(m), UpFile(n);
    DigitInName(m, k);
    DigitInName(n, k);
    forall j | 0 <= j < k ensures a[j] == b[j] {
      DigitInName(m, j);
      DigitInName(n, j);
    }
    assert a[..k] == b[..k];
    LessAt(a, b, k);
  }

  /** File name order is generation order for n migrations if and only if n is at most 9999. */
  lemma NameOrderIffBounded(n: nat)
    ensures (forall i, j :: 1 <= i < j <= n ==> Less(UpFile(i), UpFile(j))) <==> n <= 9999
  {
    if n <= 9999 {
      forall i, j | 1 <= i < j <= n ensures Less(UpFile(i), UpFile(j)) { FourDigitOrder(i, j); }
    } else {
      FourDigits(9999);
      assert Itoa(1) == "1";
      assert Itoa(10) == Itoa(1) + [Digit(0)];
      assert Itoa(100) == Itoa(10) + [Digit(0)];
      assert Itoa(1000) == Itoa(100) + [Digit(0)];
      assert Itoa(10000) == Itoa(1000) + [Digit(0)];
      assert UpFile(10000)[0] == '1' && UpFile(9999)[0] == '9';
      LessAt(UpFile(10000), UpFile(9999), 0);
      LessAsymmetric(UpFile(10000), UpFile(9999));
    }
  }

  /** The files of n generations, in order. */
  function UpFiles(n: nat): (r: seq<string>)
    ensures |r| == n
  {
    seq(n, i requires 0 <= i => UpFile(i + 1))
  }

  lemma SortedListingIsGenerationOrder(order: seq<string>, n: nat)
    requires n <= 9999 && AscendingStrings(order) && forall f :: f in order <==> f in UpFiles(n)
    ensures order == UpFiles(n)
  {
    var lt := (x: string, y: string) => Less(x, y);
    forall x, y | lt(x, y) ensures !lt(y, x) { LessAsymmetric(x, y); }
    forall i, j | 0 <= i < j < n ensures lt(UpFiles(n)[i], UpFiles(n)[j]) { FourDigitOrder(i + 1, j + 1); }
    AscendingUnique(order, UpFiles(n), lt);
  }

  // ------------------------------------------------------------------ replaying history

  type Files = map<string, seq<Operation>>

  const EMPTY_SCHEMA := Schema("", [])

  /** Schema.Validate: names present and unique. */
  predicate ValidSchema(s: Schema) {
    ValidNames(s.tables, TableName) && forall i :: 0 <= i < |s.tables| ==> ValidNames(s.tables[i].columns, ColumnName)
  }

  /** No table without a name or with another's, and in no table such a column. */
  lemma ValidSchemaMeans(s: Schema)
    ensures ValidSchema(s) <==>
            && (forall t :: t in s.tables ==> t.name != "" && forall c :: c in t.columns ==> c.name != "")
            && (forall i, j :: 0 <= i < j < |s.tables| ==> s.tables[i].name != s.tables[j].name)
            && (forall t :: t in s.tables ==>
                  forall i, j :: 0 <= i < j < |t.columns| ==> t.columns[i].name != t.columns[j].name)
  {
    forall t | t in s.tables
      ensures (forall c :: c in t.columns ==> c.name != "")
         <==> (forall i :: 0 <= i < |t.columns| ==> t.columns[i].name != "")
    {
      assert forall i :: 0 <= i < |t.columns| ==> t.columns[i] in t.columns;
    }
    assert forall i :: 0 <= i < |s.tables| ==> s.tables[i] in s.tables;
  }

  datatype MigrationResult = MigrationResult(name: string, up: seq<Operation>, down: seq<Operation>, schema: Schema)

  /** The schema the first m files make. */
  function SchemaAfter(up: Files, m: nat): Catalog {
    if m == 0 then map[]
    else if UpFile(m) in up then ApplyAll(up[UpFile(m)], SchemaAfter(up, m - 1))
    else SchemaAfter(up, m - 1)
  }

  /** Executing file m once more after the first m changes nothing Compare would see. */
  predicate Redoable(up: Files, m: nat) {
    UpFile(m) in up && Equivalent(ApplyAll(up[UpFile(m)], SchemaAfter(up, m)), SchemaAfter(up, m))
  }

  ghost predicate AllRedoable(up: Files, n: nat) {
    forall m :: 1 <= m <= n ==> Redoable(up, m)
  }

  /** n files have been written, each with its inverse, and together they make the last schema written. */
  ghost predicate History(up: Files, down: Files, n: nat, last: Schema) {
    && |up| == n && (forall f :: f in up <==> f in UpFiles(n)) && Inverses(up, down)
    && AllRedoable(up, n) && Equivalent(SchemaAfter(up, n), CatalogOf(last))
  }

  predicate Inverses(up: Files, down: Files) {
    up.Keys == down.Keys && forall f :: f in up ==> down[f] == Invert(up[f])
  }

  /** The migrations directory and the snapshot file. */
  class Service {
    var up: Files
    var down: Files
    var snapshot: Option<Schema>

    constructor ()
      ensures up == map[] && down == map[] && snapshot == None && Consistent(0)
    {
      up, down, snapshot := map[], map[], None;
      new;
      assert UpFiles(0) == [];
      EquivalenceRelation(map[], map[], map[]);
    }

    function Previous(): Schema reads this {
      if snapshot.None? then EMPTY_SCHEMA else snapshot.value
    }

    ghost predicate Consistent(n: nat) reads this {
      History(up, down, n, Previous())
    }

    method NextMigrationName() returns (name: string)
      ensures name == MigrationName(|up| + 1)
    {
      name := Pad4(|up| + 1) + "_schema";
    }

    /**
     * `current` is what the builder parsed from the models; `renders` says which lists the dialect has statements for.
     */
    method Generate(current: Schema, renders: seq<Operation> -> bool) returns (r: Option<MigrationResult>)
      ensures r.None? ==> exists ops ::
        IsDiff(ops, SortedTables(current), SortedTables(Previous())) && ops != [] &&
        !(renders(ops) && renders(Invert(ops)))
      ensures r.Some? ==>
                && r.value.schema == current && IsDiff(r.value.up, SortedTables(current), SortedTables(Previous()))
                && r.value.down == Invert(r.value.up) &&
                    (r.value.up == [] || (renders(r.value.up) && renders(r.value.down)))
                && r.value.name == (if r.value.up == [] then "" else MigrationName(|up| + 1))
                && (r.value.up == [] <==> Equivalent(CatalogOf(Previous()), CatalogOf(current)))
    {
      var diff := Compare(Some(current), Some(Previous()));
      SortedTablesSayTheSame(current);
      SortedTablesSayTheSame(Previous());
      EmptyIffEquivalent(diff.value, SortedTables(current), SortedTables(Previous()));
      if |diff.value| == 0 {
        return Some(MigrationResult("", [], [], current));
      }
      if !renders(diff.value) { return None; }
      var inverse := InvertDiff(Some(diff.value));
      if !renders(inverse.value) { return None; }
      var name := NextMigrationName();
      r := Some(MigrationResult(name, diff.value, inverse.value, current));
    }

    /**
     * Write stops at the first of its three files that cannot be written; `budget` of them can. An invalid schema is
     * refused when the first two are there.
     */
    method Write(result: MigrationResult, budget: nat) returns (err: bool)
      modifies this
      ensures var file := (if result.name == "" then MigrationName(|old(up)| + 1) else result.name) + ".up.sql";
              && up == (if budget > 0 then old(up)[file := result.up] else old(up))
              && down == (if budget > 1 then old(down)[file := result.down] else old(down))
      ensures err <==> budget < 3 || !ValidSchema(result.schema)
      ensures snapshot == if err then old(snapshot) else Some(SortSchema(result.schema))
    {
      var name := result.name;
      if name == "" { name := NextMigrationName(); }
      if budget == 0 { return true; }
      up := up[name + ".up.sql" := result.up];
      if budget == 1 { return true; }
      down := down[name + ".up.sql" := result.down];
      if !ValidSchema(result.schema) || budget == 2 { return true; }
      snapshot := Some(SortSchema(result.schema));
      err := false;
    }

    /** A generated migration is written, all of it. */
    method WriteNext(result: MigrationResult, ghost n: nat)
      requires Consistent(n) && ValidSchema(result.schema) &&
        (result.name == "" || result.name == MigrationName(|up| + 1))
      requires IsDiff(result.up, SortedTables(result.schema), SortedTables(Previous())) &&
        result.down == Invert(result.up)
      modifies this
      ensures Consistent(n + 1) && snapshot == Some(SortSchema(result.schema))
    {
      ghost var before, was := up, down;
      assert |up| == n && MigrationName(|up| + 1) + ".up.sql" == UpFile(n + 1);
      ExtendHistory(up, down, n, result.up, result.schema, Previous());
      var failed := Write(result, 3);
      assert up == before[UpFile(n + 1) := result.up] && down == was[UpFile(n + 1) := result.down];
    }

    /** Generate, then Write; the command line skips writing an empty diff, library callers need not. */
    method GenerateAndWrite(current: Schema, writeEmpty: bool, renders: seq<Operation> -> bool, ghost n: nat)
      returns (err: bool, written: bool)
      requires Consistent(n) && ValidSchema(current)
      modifies this
      ensures written ==> Consistent(n + 1) && snapshot == Some(SortSchema(current))
      ensures !written ==> Consistent(n) && snapshot == old(snapshot) && (err || !writeEmpty)
      ensures !err ==> Equivalent(CatalogOf(Previous()), CatalogOf(current))
    {
      var result := Generate(current, renders);
      if result.None? { return true, false; }
      if |result.value.up| == 0 && !writeEmpty { return false, false; }
      WriteNext(result.value, n);
      SortedIsEquivalent(current);
      return false, true;
    }
  }

  lemma UpFilesSnoc(n: nat)
    ensures UpFiles(n + 1) == UpFiles(n) + [UpFile(n + 1)] && UpFile(n + 1) !in UpFiles(n)
  {
    if UpFile(n + 1) in UpFiles(n) {
      var i :| 0 <= i < n && UpFiles(n)[i] == UpFile(n + 1);
      MigrationNamesDiffer(i + 1, n + 1);
    }
  }

  lemma SortedIsEquivalent(s: Schema)
    ensures Equivalent(CatalogOf(SortSchema(s)), CatalogOf(s))
  {
    SortKeepsCatalog(s);
    EquivalenceRelation(CatalogOf(s), CatalogOf(s), CatalogOf(s));
  }

  lemma InversesGrow(up: Files, down: Files, file: string, ops: seq<Operation>)
    requires Inverses(up, down)
    ensures Inverses(up[file := ops], down[file := Invert(ops)])
  {
  }

  lemma FilesGrow(before: Files, after: Files, n: nat, ops: seq<Operation>)
    requires |before| == n && (forall f :: f in before <==> f in UpFiles(n)) && after == before[UpFile(n + 1) := ops]
    ensures |after| == n + 1 && (forall f :: f in after <==> f in UpFiles(n + 1))
  {
    UpFilesSnoc(n);
    assert after.Keys == before.Keys + {UpFile(n + 1)};
    assert |after.Keys| == n + 1;
  }

  lemma {:induction false} SchemaKept(before: Files, after: Files, n: nat, ops: seq<Operation>, m: nat)
    requires m <= n && after == before[UpFile(n + 1) := ops]
    ensures SchemaAfter(after, m) == SchemaAfter(before, m) && UpFile(m) != UpFile(n + 1)
    decreases m
  {
    if UpFile(m) == UpFile(n + 1) { MigrationNamesDiffer(m, n + 1); }
    if m > 0 { SchemaKept(before, after, n, ops, m - 1); }
  }

  lemma SchemaGrows(before: Files, after: Files, n: nat, ops: seq<Operation>, current: Schema, previous: Schema)
    requires IsDiff(ops, SortedTables(current), SortedTables(previous)) &&
             Equivalent(SchemaAfter(before, n), CatalogOf(previous))
    requires after == before[UpFile(n + 1) := ops]
    ensures Equivalent(SchemaAfter(after, n + 1), CatalogOf(SortSchema(current))) && Redoable(after, n + 1)
  {
    SchemaKept(before, after, n, ops, n);
    SortedTablesSayTheSame(previous);
    PatchReachesExpected(ops, SortedTables(current), SortedTables(previous), SchemaAfter(before, n));
    assert CatalogOf(SortSchema(current)) == Shapes(SortedTables(current));
    RedoneDiff(ops, SortedTables(current), SortedTables(previous), ApplyAll(ops, SchemaAfter(before, n)));
  }

  lemma RedoableGrows(before: Files, after: Files, n: nat, ops: seq<Operation>)
    requires AllRedoable(before, n) && after == before[UpFile(n + 1) := ops] && Redoable(after, n + 1)
    ensures AllRedoable(after, n + 1)
  {
    forall m | 1 <= m <= n ensures Redoable(after, m) {
      assert Redoable(before, m);
      SchemaKept(before, after, n, ops, m);
    }
  }

  /** One more generation: the schema the files make follows the models. */
  lemma ExtendHistory(before: Files, down: Files, n: nat, ops: seq<Operation>, current: Schema, previous: Schema)
    requires History(before, down, n, previous) && IsDiff(ops, SortedTables(current), SortedTables(previous))
    ensures History(before[UpFile(n + 1) := ops], down[UpFile(n + 1) := Invert(ops)], n + 1, SortSchema(current))
  {
    var after := before[UpFile(n + 1) := ops];
    FilesGrow(before, after, n, ops);
    SchemaGrows(before, after, n, ops, current, previous);
    RedoableGrows(before, after, n, ops);
    InversesGrow(before, down, UpFile(n + 1), ops);
  }
}
