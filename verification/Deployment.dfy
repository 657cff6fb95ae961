/** migrate/migrate.go: what running and reverting a directory of generated files achieves. */
module Deployment {
  import opened Text
  import opened Sorting
  import opened SchemaModel
  import opened SchemaDiff
  import opened DiffSemantics
  import opened DiffInverse
  import opened MigrationRunner
  import opened Migrations

  lemma UpFileName(n: nat)
    ensures TrimSuffix(UpFile(n)) == MigrationName(n)
  {
    assert UpFile(n)[|UpFile(n)| - 7..] == ".up.sql";
    assert UpFile(n)[..|UpFile(n)| - 7] == MigrationName(n);
  }

  /** A later generation is not among the first m. */
  lemma NotYetApplied(n: nat, m: nat)
    requires m < n
    ensures TrimSuffix(UpFile(n)) !in Names(UpFiles(m))
  {
    forall f | f in UpFiles(m) ensures TrimSuffix(f) != TrimSuffix(UpFile(n)) {
      var i :| 0 <= i < m && UpFiles(m)[i] == f;
      TrimmedDiffer(i + 1, n);
    }
  }

  lemma TrimmedDiffer(m: nat, n: nat)
    requires m != n
    ensures TrimSuffix(UpFile(m)) != TrimSuffix(UpFile(n))
  {
    UpFileName(m);
    UpFileName(n);
    if MigrationName(m) == MigrationName(n) { MigrationNamesDiffer(m, n); }
  }

  /** With the first m generations recorded, the pending files are exactly the later ones, in order. */
  lemma {:induction false} PendingAfterPrefix(n: nat, m: nat)
    requires m <= n
    ensures Pending(UpFiles(n), Names(UpFiles(m))) == UpFiles(n)[m..]
    decreases n
  {
    if m == n {
      AllApplied(UpFiles(n), Names(UpFiles(m)));
    } else {
      UpFilesSnoc(n - 1);
      PendingAppend(UpFiles(n - 1), [UpFile(n)], Names(UpFiles(m)));
      assert [UpFile(n)][1..] == [];
      PendingAfterPrefix(n - 1, m);
      NotYetApplied(n, m);
      assert UpFiles(n)[m..] == UpFiles(n - 1)[m..] + [UpFile(n)];
    }
  }

  lemma NamesOfPrefix(n: nat, m: nat, k: nat, r: nat)
    requires r == m + k <= n
    ensures Names(UpFiles(m)) + Names(UpFiles(n)[m..][..k]) == Names(UpFiles(r))
  {
    assert UpFiles(n)[m..][..k] == UpFiles(r)[m..];
    assert UpFiles(r) == UpFiles(m) + UpFiles(r)[m..];
  }

  /** The first n files are there. */
  ghost predicate Written(up: Files, n: nat) {
    forall f :: f in UpFiles(n) ==> f in up
  }

  lemma LaterFiles(n: nat, m: nat, k: nat)
    requires m + k < n
    ensures UpFiles(n)[m..][..k + 1] == UpFiles(n)[m..][..k] + [UpFile(m + k + 1)]
  {
  }

  lemma EquivalentVia(x: Catalog, y: Catalog, z: Catalog)
    requires Equivalent(x, y) && Equivalent(y, z)
    ensures Equivalent(x, z)
  {
    EquivalenceRelation(x, y, z);
  }

  /**
   * Where a database is that records the first m files: after the first `at`; the next one may have been executed
   * unrecorded.
   */
  predicate Stands(n: nat, m: nat, at: nat) {
    m <= at <= n && at <= m + 1
  }

  function Max(a: nat, b: nat): nat {
    if a < b then b else a
  }

  /** Executing file m + 1 from the schema after the first m or, once more, the first m + 1. */
  lemma NextFile(up: Files, n: nat, m: nat, at: nat, next: nat, c: Catalog)
    requires Stands(n, m, at) && next == m + 1 <= n && AllRedoable(up, n) && Equivalent(c, SchemaAfter(up, at))
    ensures UpFile(next) in up && Equivalent(ApplyAll(up[UpFile(next)], c), SchemaAfter(up, next))
  {
    assert Redoable(up, next);
    ApplyAllKeepsEquivalence(up[UpFile(next)], c, SchemaAfter(up, at));
    if at == next {
      EquivalentVia(ApplyAll(up[UpFile(next)], c), ApplyAll(up[UpFile(next)], SchemaAfter(up, next)),
          SchemaAfter(up, next));
    }
  }

  /** The next k files lead to where the first m + k do. */
  lemma {:induction false} ReplayOnwards(up: Files, n: nat, m: nat, at: nat, k: nat, c: Catalog, end: nat)
    requires Stands(n, m, at) && m + k <= n && end == Max(at, m + k) && Written(up, n) && AllRedoable(up, n) &&
             Equivalent(c, SchemaAfter(up, at))
    ensures forall f :: f in UpFiles(n)[m..][..k] ==> f in up
    ensures Equivalent(Replay(UpFiles(n)[m..][..k], up, c, ApplyAll), SchemaAfter(up, end))
  {
    if k == 0 {
      assert UpFiles(n)[m..][..0] == [];
    } else {
      var before := Max(at, m + k - 1);
      ReplayOnwards(up, n, m, at, k - 1, c, before);
      LaterFiles(n, m, k - 1);
      assert UpFiles(n)[end - 1] == UpFile(end);
      ReplaySnoc(UpFiles(n)[m..][..k - 1], UpFile(end), up, c, ApplyAll);
      NextFile(up, n, end - 1, before, end, Replay(UpFiles(n)[m..][..k - 1], up, c, ApplyAll));
    }
  }

  /** What the outcome of a run means for a database that holds the first m generations. */
  lemma RunFromPrefix(up: Files, budget: nat, n: nat, m: nat, k: nat, r: nat, err: bool, start: Catalog, end: Catalog,
                      order: seq<string>, was: set<string>, applied: set<string>)
    requires m <= n && order == UpFiles(n) && was == Names(UpFiles(m))
    requires RunOutcome(order, up, ApplyAll, was, start, budget, err, k, applied, end) && r == m + k
    ensures r <= n && applied == Names(UpFiles(r)) && (err <==> budget < 2 * (n - m)) && (!err ==> r == n)
    ensures m + Executed(k, budget, err) <= n && (forall f :: f in UpFiles(n)[m..] ==> f in up)
    ensures end == Reached(UpFiles(n)[m..], Executed(k, budget, err), up, start, ApplyAll)
  {
    PendingAfterPrefix(n, m);
    OutcomeOn(order, up, ApplyAll, was, start, budget, err, k, applied, end, UpFiles(n)[m..]);
    NamesOfPrefix(n, m, k, r);
  }

  lemma ReachedOnwards(up: Files, n: nat, m: nat, at: nat, done: nat, j: nat, start: Catalog, end: Catalog)
    requires Stands(n, m, at) && m + done <= n && j == Max(at, m + done) && Written(up, n) && AllRedoable(up, n)
    requires Equivalent(start, SchemaAfter(up, at)) && (forall f :: f in UpFiles(n)[m..] ==> f in up)
    requires end == Reached(UpFiles(n)[m..], done, up, start, ApplyAll)
    ensures Equivalent(end, SchemaAfter(up, j)) && (m == n ==> end == start)
  {
    ReplayOnwards(up, n, m, at, done, start, j);
    if m == n { assert UpFiles(n)[m..][..done] == []; }
  }

  lemma RunOnwards(up: Files, budget: nat, n: nat, m: nat, at: nat, k: nat, r: nat, j: nat, err: bool, start: Catalog,
                   end: Catalog,
                   order: seq<string>, was: set<string>, applied: set<string>)
    requires Stands(n, m, at) && order == UpFiles(n) && was == Names(UpFiles(m)) && Written(up, n) && AllRedoable(up, n)
    requires Equivalent(start, SchemaAfter(up, at))
    requires RunOutcome(order, up, ApplyAll, was, start, budget, err, k, applied, end) && r == m + k &&
             j == Max(at, Executed(r, budget, err))
    ensures r <= n && applied == Names(UpFiles(r)) && (err <==> budget < 2 * (n - m)) && (!err ==> r == j == n)
    ensures Stands(n, r, j) && Equivalent(end, SchemaAfter(up, j)) && (m == n ==> end == start)
  {
    RunFromPrefix(up, budget, n, m, k, r, err, start, end, order, was, applied);
    ReachedOnwards(up, n, m, at, Executed(k, budget, err), j, start, end);
  }

  /**
   * Deploying a history of n files that leads to `last`: the database records the first m generations and is, up to
   * what Compare cannot tell apart, where these lead, or one file further, when a run before could not record it. Up to
   * 9999 files a run executes the rest in generation order. However it stops, the database is in such a state again,
   * with the first r recorded; when it finishes it is where the last model leads, and running again does nothing.
   */
  method Deploy(up: Files, db: Database<Catalog>, budget: nat, ghost n: nat, ghost m: nat, ghost at: nat,
                ghost last: Catalog)
    returns (err: bool, ghost r: nat, ghost j: nat)
    requires |up| == n && (forall f :: f in up <==> f in UpFiles(n)) && AllRedoable(up, n) &&
             Equivalent(SchemaAfter(up, n), last)
    requires Stands(n, m, at) && db.applied == Names(UpFiles(m)) && Equivalent(db.catalog, SchemaAfter(up, at))
    modifies db
    ensures n <= 9999 ==>
              && m <= r <= n && db.applied == Names(UpFiles(r)) && (err <==> budget < 2 * (n - m)) && (!err ==> r == n)
              && j == Max(at, Executed(r, budget, err)) && Stands(n, r, j) && Equivalent(db.catalog, SchemaAfter(up, j))
    ensures n <= 9999 && !err ==> Equivalent(db.catalog, last)
    ensures n <= 9999 && m == n ==> db.catalog == old(db.catalog)
  {
    ghost var order, start, was := [], db.catalog, db.applied;
    ghost var k;
    err, order, k := Run(up, ApplyAll, db, budget);
    r := m + k;
    j := Max(at, Executed(r, budget, err));
    if n <= 9999 {
      SortedListingIsGenerationOrder(order, n);
      RunOnwards(up, budget, n, m, at, k, r, j, err, start, db.catalog, order, was, db.applied);
      if !err {
        assert j == n;
        EquivalentVia(db.catalog, SchemaAfter(up, n), last);
      }
    }
  }

  /**
   * A run that stops anywhere, also between executing and recording a file, is made good by the next one that does not.
   */
  method DeployAgain(up: Files, db: Database<Catalog>, budget: nat, ghost n: nat, ghost m: nat, ghost at: nat,
                     ghost last: Catalog)
    requires |up| == n <= 9999 && (forall f :: f in up <==> f in UpFiles(n)) && AllRedoable(up, n) &&
             Equivalent(SchemaAfter(up, n), last)
    requires Stands(n, m, at) && db.applied == Names(UpFiles(m)) && Equivalent(db.catalog, SchemaAfter(up, at))
    modifies db
    ensures db.applied == Names(UpFiles(n)) && Equivalent(db.catalog, last)
  {
    ghost var r, j;
    var err;
    err, r, j := Deploy(up, db, budget, n, m, at, last);
    err, r, j := Deploy(up, db, 2 * |up|, n, r, j, last);
  }

  /** What the last of the models says; nothing before the first. */
  function LastModel(models: seq<Schema>): Catalog {
    if models == [] then map[] else CatalogOf(models[|models| - 1])
  }

  /**
   * Every model in turn is generated and written, up to the first diff the dialect has no statements for; `writeEmpty`
   * tells whether an empty diff is written as well.
   */
  method Develop(models: seq<Schema>, writeEmpty: seq<bool>, renders: seq<Operation> -> bool)
    returns (service: Service, failed: bool, ghost n: nat)
    requires |writeEmpty| == |models| && forall i :: 0 <= i < |models| ==> ValidSchema(models[i])
    ensures n <= |models| && service.Consistent(n) && fresh(service)
    ensures !failed ==> Equivalent(CatalogOf(service.Previous()), LastModel(models))
    decreases |models|
  {
    if |models| == 0 {
      service := new Service();
      n, failed := 0, false;
      assert CatalogOf(EMPTY_SCHEMA) == map[];
      return;
    }
    var last := |models| - 1;
    service, failed, n := Develop(models[..last], writeEmpty[..last], renders);
    if failed { return; }
    var written;
    failed, written := service.GenerateAndWrite(models[last], writeEmpty[last], renders, n);
    n := if written then n + 1 else n;
  }

  /** The first run on an empty database. */
  method FirstDeploy(up: Files, db: Database<Catalog>, budget: nat, ghost n: nat, ghost last: Catalog)
    returns (err: bool, ghost k: nat)
    requires |up| == n && (forall f :: f in up <==> f in UpFiles(n)) && AllRedoable(up, n) &&
             Equivalent(SchemaAfter(up, n), last)
    requires db.applied == {} && db.catalog == map[]
    modifies db
    ensures n <= 9999 ==> k <= n && db.applied == Names(UpFiles(k)) && (err <==> budget < 2 * n)
    ensures n <= 9999 && !err ==> k == n && Equivalent(db.catalog, last)
  {
    ghost var m: nat, j := 0, 0;
    ghost var base := SchemaAfter(up, m);
    assert Names(UpFiles(m)) == {} && base == db.catalog;
    EquivalenceRelation(base, base, base);
    err, k, j := Deploy(up, db, budget, n, m, m, last);
  }

  /**
   * A whole life: development, then one run on an empty database. What counts is the number of files, not that of
   * models.
   */
  method DevelopAndDeploy(models: seq<Schema>, writeEmpty: seq<bool>, renders: seq<Operation> -> bool, budget: nat)
    returns (failed: bool, err: bool, db: Database<Catalog>, ghost n: nat, ghost k: nat)
    requires |writeEmpty| == |models| && forall i :: 0 <= i < |models| ==> ValidSchema(models[i])
    ensures n <= |models|
    ensures n <= 9999 ==> k <= n && (err <==> budget < 2 * n) && (!err ==> k == n) && db.applied == Names(UpFiles(k))
    ensures n <= 9999 && !failed && !err ==> Equivalent(db.catalog, LastModel(models))
  {
    var service;
    service, failed, n := Develop(models, writeEmpty, renders);
    db := new Database<Catalog>(map[]);
    ghost var last := CatalogOf(service.Previous());
    assert !failed ==> Equivalent(last, LastModel(models));
    err, k := FirstDeploy(service.up, db, budget, n, last);
    if n <= 9999 && !err && !failed { EquivalentVia(db.catalog, last, LastModel(models)); }
  }

  lemma LastIsPending(up: Files, last: nat)
    requires last > 0 && forall f :: f in up <==> f in UpFiles(last)
    ensures UpFile(last) == MigrationName(last) + ".up.sql" && MigrationName(last) != "" &&
            MigrationName(last) !in Names(UpFiles(last - 1))
    ensures forall f :: f in up && f != UpFile(last) ==> TrimSuffix(f) in Names(UpFiles(last - 1))
  {
    UpFilesSnoc(last - 1);
    UpFileName(last);
    NotYetApplied(last, last - 1);
    forall f | f in up && f != UpFile(last) ensures f in UpFiles(last - 1) {
      assert f in UpFiles(last - 1) + [UpFile(last)];
    }
  }

  /**
   * Running the last migration and reverting it, from a schema Compare cannot tell from the one it was generated from,
   * leads back to one it cannot tell from it if and only if the diff is reversible; from that schema itself it leads
   * back exactly.
   */
  method RunThenRevertLast(service: Service, db: Database<Catalog>, last: nat, ghost current: Schema,
                           ghost previous: Schema)
    requires last > 0 && service.Consistent(last) && UpFile(last) in service.up && UpFile(last) in service.down
    requires IsDiff(service.up[UpFile(last)], SortedTables(current), SortedTables(previous))
    requires db.applied == Names(UpFiles(last - 1)) && Equivalent(db.catalog, CatalogOf(previous))
    modifies db
    ensures db.applied == old(db.applied)
    ensures Equivalent(db.catalog, old(db.catalog)) <==> Reversible(service.up[UpFile(last)], CatalogOf(previous))
    ensures old(db.catalog) == CatalogOf(previous) ==>
              (db.catalog == old(db.catalog) <==> Reversible(service.up[UpFile(last)], CatalogOf(previous)))
  {
    LastIsPending(service.up, last);
    RevertRoundTrip(service.up[UpFile(last)], current, previous, db.catalog);
    RunThenRevert(service.up, service.down, ApplyAll, db, MigrationName(last));
  }

  lemma RevertRoundTrip(ops: seq<Operation>, current: Schema, previous: Schema, c: Catalog)
    requires IsDiff(ops, SortedTables(current), SortedTables(previous)) && Equivalent(c, CatalogOf(previous))
    ensures Equivalent(ApplyAll(Invert(ops), ApplyAll(ops, c)), c) <==> Reversible(ops, CatalogOf(previous))
    ensures ApplyAll(Invert(ops), ApplyAll(ops, CatalogOf(previous))) == CatalogOf(previous)
            <==> Reversible(ops, CatalogOf(previous))
  {
    SortedTablesSayTheSame(previous);
    InverseRestoresIffReversible(ops, SortedTables(current), SortedTables(previous));
    InverseRestoresEquivalentIff(ops, SortedTables(current), SortedTables(previous), c);
  }
}
