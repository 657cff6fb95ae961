/**
 * The runner of migrate/migrate.go: which files a run executes, and how far it gets. What executing a
 * file does to the database is a parameter.
 */
module MigrationRunner {
  import opened Text
  import opened Sorting
  import SchemaDiff

  type Exec<!C, !S> = (C, S) -> S

  /** Executing the listed files one after the other. */
  function Replay<C, S>(order: seq<string>, files: map<string, C>, s: S, exec: Exec<C, S>): S
    requires forall f :: f in order ==> f in files
  {
    if order == [] then s else Replay(order[1..], files, exec(files[order[0]], s), exec)
  }

  lemma {:induction false} ReplaySnoc<C, S>(order: seq<string>, f: string, files: map<string, C>, s: S,
                                            exec: Exec<C, S>)
    requires f in files && forall g :: g in order ==> g in files
    ensures Replay(order + [f], files, s, exec) == exec(files[f], Replay(order, files, s, exec))
  {
    if order == [] {
      assert ([] + [f])[1..] == [];
    } else {
      assert (order + [f])[1..] == order[1..] + [f];
      ReplaySnoc(order[1..], f, files, exec(files[order[0]], s), exec);
    }
  }

  lemma {:induction false} ReplayIgnoresOthers<C, S>(order: seq<string>, files: map<string, C>, more: map<string, C>,
      s: S, exec: Exec<C, S>)
    requires forall f :: f in order ==> f in files && f in more && files[f] == more[f]
    ensures Replay(order, files, s, exec) == Replay(order, more, s, exec)
  {
    if order != [] { ReplayIgnoresOthers(order[1..], files, more, exec(files[order[0]], s), exec); }
  }

  lemma {:induction false} ReplaySplit<C, S>(p: seq<string>, q: seq<string>, files: map<string, C>, s: S,
                                             exec: Exec<C, S>)
    requires forall f :: f in p + q ==> f in files
    ensures (forall f :: f in p ==> f in files) && (forall f :: f in q ==> f in files)
    ensures Replay(p + q, files, s, exec) == Replay(q, files, Replay(p, files, s, exec), exec)
  {
    assert forall f :: f in p || f in q ==> f in p + q;
    if p == [] {
      assert p + q == q;
    } else {
      assert (p + q)[1..] == p[1..] + q;
      ReplaySplit(p[1..], q, files, exec(files[p[0]], s), exec);
    }
  }

  /** The database: its tables and the orm_migrations registry. */
  class Database<S> {
    var catalog: S
    var applied: set<string>

    constructor (catalog: S)
      ensures this.catalog == catalog && applied == {}
    {
      this.catalog, applied := catalog, {};
    }
  }

  function TrimSuffix(file: string): string {
    if |file| >= 7 && file[|file| - 7..] == ".up.sql" then file[..|file| - 7] else file
  }

  function Names(files: seq<string>): set<string> {
    set f | f in files :: TrimSuffix(f)
  }

  /** The files Run will execute. */
  function Pending(order: seq<string>, applied: set<string>): seq<string> {
    if order == [] then []
    else (if TrimSuffix(order[0]) in applied then [] else [order[0]]) + Pending(order[1..], applied)
  }

  lemma {:induction false} PendingMembers(order: seq<string>, applied: set<string>)
    ensures forall f :: f in Pending(order, applied) <==> f in order && TrimSuffix(f) !in applied
  {
    if order != [] {
      PendingMembers(order[1..], applied);
      assert order == [order[0]] + order[1..];
    }
  }

  lemma {:induction false} PendingAppend(p: seq<string>, q: seq<string>, applied: set<string>)
    ensures Pending(p + q, applied) == Pending(p, applied) + Pending(q, applied)
  {
    if p == [] {
      assert p + q == q;
    } else {
      assert (p + q)[1..] == p[1..] + q;
      PendingAppend(p[1..], q, applied);
    }
  }

  /** What one more listed file adds. */
  lemma PendingStep(order: seq<string>, i: nat, applied: set<string>)
    requires i < |order|
    ensures Pending(order[..i + 1], applied) == Pending(order[..i], applied) + if TrimSuffix(order[i]) in applied then
            [] else [order[i]]
    ensures Pending(order[..i + 1], applied) <= Pending(order, applied)
  {
    assert order == order[..i + 1] + order[i + 1..] && order[..i + 1] == order[..i] + [order[i]];
    PendingAppend(order[..i + 1], order[i + 1..], applied);
    PendingAppend(order[..i], [order[i]], applied);
    assert [order[i]][1..] == [];
  }

  /** Executing the pending files up to position k. */
  function Reached<C, S>(todo: seq<string>, k: nat, files: map<string, C>, s: S, exec: Exec<C, S>): S
    requires k <= |todo| && forall f :: f in todo ==> f in files
  {
    Replay(todo[..k], files, s, exec)
  }

  /** How a run over the listed files ends; `k` files were executed and recorded. */
  ghost predicate RunOutcome<C, S>(order: seq<string>, files: map<string, C>, exec: Exec<C, S>, was: set<string>,
                                   start: S,
                                   budget: nat, err: bool, k: nat, applied: set<string>, catalog: S) {
    var todo := Pending(order, was);
    && k <= |todo| && (forall f :: f in todo ==> f in files)
    && (err <==> budget < 2 * |todo|)
    && (!err ==> k == |todo| && catalog == Reached(todo, k, files, start, exec))
    && (err ==> k == budget / 2 && catalog == Reached(todo, if budget % 2 == 0 then k else k + 1, files, start, exec))
    && applied == was + Names(todo[..k])
  }

  /** How many of the pending files were executed; a failing record step leaves one unrecorded. */
  function Executed(k: nat, budget: nat, err: bool): nat {
    if err && budget % 2 == 1 then k + 1 else k
  }

  lemma OutcomeOn<C, S>(order: seq<string>, files: map<string, C>, exec: Exec<C, S>, was: set<string>, start: S,
                        budget: nat, err: bool, k: nat, applied: set<string>, catalog: S, todo: seq<string>)
    requires RunOutcome(order, files, exec, was, start, budget, err, k, applied, catalog) && todo == Pending(order, was)
    ensures Executed(k, budget, err) <= |todo| && k <= |todo| && forall f :: f in todo ==> f in files
    ensures (err <==> budget < 2 * |todo|) && (!err ==> k == |todo|) && applied == was + Names(todo[..k])
    ensures catalog == Reached(todo, Executed(k, budget, err), files, start, exec)
  {
    if !err { assert todo[..k] == todo; }
  }

  /**
   * Run on a database. Every exec and every record of an executed file takes one of `budget` steps
   * that succeed; the next one fails. `order` is the sorted listing.
   */
  method Run<C, S>(files: map<string, C>, exec: Exec<C, S>, db: Database<S>, budget: nat)
    returns (err: bool, ghost order: seq<string>, ghost k: nat)
    modifies db
    ensures AscendingStrings(order) && (forall f :: f in order <==> f in files)
    ensures RunOutcome(order, files, exec, old(db.applied), old(db.catalog), budget, err, k, db.applied, db.catalog)
  {
    var list := SchemaDiff.SortedKeys(files);
    order := list;
    err, k := RunListed(list, files, exec, db, budget);
  }

  /** An unapplied file is the next of the pending ones. */
  lemma NextPending(list: seq<string>, i: nat, applied: set<string>)
    requires i < |list| && TrimSuffix(list[i]) !in applied
    ensures var done, todo := Pending(list[..i], applied), Pending(list, applied);
            |done| < |todo| && todo[..|done|] == done &&
                todo[..|done| + 1] == done + [list[i]] == Pending(list[..i + 1], applied)
  {
    PendingStep(list, i, applied);
  }

  /** One more file executed and recorded. */
  lemma ReachedNext<C, S>(todo: seq<string>, k: nat, files: map<string, C>, s: S, exec: Exec<C, S>)
    requires k < |todo| && forall f :: f in todo ==> f in files
    ensures Reached(todo, k + 1, files, s, exec) == exec(files[todo[k]], Reached(todo, k, files, s, exec))
    ensures Names(todo[..k + 1]) == Names(todo[..k]) + {TrimSuffix(todo[k])}
  {
    assert todo[..k + 1] == todo[..k] + [todo[k]];
    ReplaySnoc(todo[..k], todo[k], files, s, exec);
    NamesSnoc(todo[..k], todo[k]);
  }

  /** The first i listed files are done with: k of them were pending, executed and recorded. */
  ghost predicate Ran<C, S>(list: seq<string>, i: nat, files: map<string, C>, exec: Exec<C, S>, was: set<string>,
                            start: S,
                            k: nat, applied: set<string>, catalog: S) {
    var todo := Pending(list, was);
    && i <= |list| && k <= |todo| && (forall f :: f in todo ==> f in files) && todo[..k] == Pending(list[..i], was)
    && applied == was + Names(todo[..k]) && catalog == Reached(todo, k, files, start, exec)
  }

  lemma RanSkip<C, S>(list: seq<string>, i: nat, files: map<string, C>, exec: Exec<C, S>, was: set<string>, start: S,
                      k: nat, applied: set<string>, catalog: S)
    requires i < |list| && Ran(list, i, files, exec, was, start, k, applied, catalog) && TrimSuffix(list[i]) in was
    ensures Ran(list, i + 1, files, exec, was, start, k, applied, catalog)
  {
    PendingStep(list, i, was);
  }

  lemma RanNext<C, S>(list: seq<string>, i: nat, files: map<string, C>, exec: Exec<C, S>, was: set<string>, start: S,
                      k: nat, applied: set<string>, catalog: S)
    requires i < |list| && Ran(list, i, files, exec, was, start, k, applied, catalog) && TrimSuffix(list[i]) !in was &&
             list[i] in files
    ensures k < |Pending(list, was)| && exec(files[list[i]], catalog)
            == Reached(Pending(list, was), k + 1, files, start, exec)
    ensures Ran(list, i + 1, files, exec, was, start, k + 1, applied + {TrimSuffix(list[i])},
            exec(files[list[i]], catalog))
  {
    var todo := Pending(list, was);
    NextPending(list, i, was);
    ReachedNext(todo, k, files, start, exec);
    assert todo[..k + 1][k] == list[i];
  }

  /** The loop of Run over the sorted listing. */
  method RunListed<C, S>(list: seq<string>, files: map<string, C>, exec: Exec<C, S>, db: Database<S>, budget: nat)
    returns (err: bool, ghost k: nat)
    requires forall f :: f in list ==> f in files
    modifies db
    ensures RunOutcome(list, files, exec, old(db.applied), old(db.catalog), budget, err, k, db.applied, db.catalog)
  {
    k := 0;
    ghost var start := db.catalog;
    var applied := db.applied;
    var left := budget;
    PendingMembers(list, applied);
    for i := 0 to |list|
      invariant Ran(list, i, files, exec, applied, start, k, db.applied, db.catalog) && left == budget - 2 * k >= 0
    {
      var name := TrimSuffix(list[i]);
      if name in applied {
        RanSkip(list, i, files, exec, applied, start, k, db.applied, db.catalog);
        continue;
      }
      RanNext(list, i, files, exec, applied, start, k, db.applied, db.catalog);
      if left == 0 { return true, k; }
      left := left - 1;
      db.catalog := exec(files[list[i]], db.catalog);
      if left == 0 { return true, k; }
      left := left - 1;
      db.applied := db.applied + {name};
      k := k + 1;
    }
    assert list[..|list|] == list;
    err := false;
  }

  lemma NamesSnoc(s: seq<string>, f: string)
    ensures Names(s + [f]) == Names(s) + {TrimSuffix(f)}
  {
  }

  /**
   * Revert executes the down file and takes the record away. As for Run, `budget` of the two steps succeed: a failing
   * removal leaves the migration reverted and still recorded.
   */
  method Revert<C, S>(files: map<string, C>, exec: Exec<C, S>, db: Database<S>, name: string, budget: nat)
    returns (err: bool)
    modifies db
    ensures err <==> name == "" || name + ".up.sql" !in files || budget < 2
    ensures db.catalog == if name == "" || name + ".up.sql" !in files || budget == 0 then old(db.catalog)
            else exec(files[name + ".up.sql"], old(db.catalog))
    ensures db.applied == if err then old(db.applied) else old(db.applied) - {name}
  {
    if name == "" || name + ".up.sql" !in files { return true; }
    if budget == 0 { return true; }
    db.catalog := exec(files[name + ".up.sql"], db.catalog);
    if budget == 1 { return true; }
    db.applied := db.applied - {name};
    err := false;
  }

  lemma {:induction false} AllApplied(order: seq<string>, applied: set<string>)
    requires forall f :: f in order ==> TrimSuffix(f) in applied
    ensures Pending(order, applied) == []
  {
    if order != [] {
      assert order[0] in order;
      AllApplied(order[1..], applied);
    }
  }

  lemma {:induction false} OnlyPending(order: seq<string>, file: string, applied: set<string>)
    requires AscendingStrings(order) && file in order && TrimSuffix(file) !in applied
    requires forall f :: f in order && f != file ==> TrimSuffix(f) in applied
    ensures Pending(order, applied) == [file]
  {
    if order[0] == file {
      LessIrreflexive(file);
      assert forall f :: f in order[1..] ==> Less(file, f);
      AllApplied(order[1..], applied);
    } else {
      assert order == [order[0]] + order[1..];
      OnlyPending(order[1..], file, applied);
    }
  }

  /** A run that has one file left to execute, followed by reverting that file. */
  method RunThenRevert<C, S>(up: map<string, C>, down: map<string, C>, exec: Exec<C, S>, db: Database<S>, name: string)
    requires name != "" && name + ".up.sql" in up && name + ".up.sql" in down && name !in db.applied
    requires forall f :: f in up && f != name + ".up.sql" ==> TrimSuffix(f) in db.applied
    modifies db
    ensures db.applied == old(db.applied)
    ensures db.catalog == exec(down[name + ".up.sql"], exec(up[name + ".up.sql"], old(db.catalog)))
  {
    ghost var file, start := name + ".up.sql", db.catalog;
    assert file[|file| - 7..] == ".up.sql" && file[..|file| - 7] == name;
    ghost var was := db.applied;
    var err, order, k := Run(up, exec, db, 2);
    OnlyPending(order, file, was);
    assert [file][..1] == [file] && [file][1..] == [];
    assert Replay([file], up, start, exec) == exec(up[file], start);
    assert Names([file]) == {name};
    err := Revert(down, exec, db, name, 2);
  }
}
