/** seed/seed.go: what a second identical Sync does. */
module SecondSync {
  import opened SeedSync
  import opened Wrappers

  // ------------------------------------------------------------------- a second Sync

  lemma {:induction false} AllPresentAddsNothing(m: Model, cores: seq<Row>, records: seq<Row>)
    requires Suited(m) && Typed(m, records) && forall r :: r in records ==> Present(m, cores, r)
    ensures |PutAll(m, cores, records)| == |cores|
    decreases |records|
  {
    if records != [] {
      var next := Put(m, cores, records[0]);
      assert records[0] in records;
      forall r | r in records[1..] ensures Present(m, next, r) {
        assert r in records;
        PutKeepsPresence(m, cores, records[0], r);
      }
      AllPresentAddsNothing(m, next, records[1..]);
    }
  }

  lemma PutAllIdempotent(m: Model, cores: seq<Row>, records: seq<Row>)
    requires Suited(m) && Typed(m, records) && Unambiguous(m, cores, records)
    ensures PutAll(m, PutAll(m, cores, records), records) == PutAll(m, cores, records)
  {
    var once := PutAll(m, cores, records);
    forall r | r in records ensures Present(m, once, r) { RecordsPresent(m, cores, records, r); }
    AllPresentAddsNothing(m, once, records);
    forall i | 0 <= i < |once| ensures PutAll(m, once, records)[i] == once[i] {
      PutAllAt(m, once, records, i);
      AllSettled(m, cores, records, i);
    }
  }

  /**
   * Whoever runs it and whenever: a second identical Sync that succeeds inserts nothing and changes only audit columns.
   */
  lemma SecondSyncInsertsNothing(m: Model, env: Env, clock: nat -> Value, rows: seq<Row>, records: seq<Row>, env2: Env,
                                 clock2: nat -> Value)
    requires Suited(m) && Typed(m, rows) && Typed(m, records)
    requires SyncAll(m, env, clock, rows, records).error.None?
    requires SyncAll(m, env2, clock2, SyncAll(m, env, clock, rows, records).rows, records).error.None?
    ensures var first := SyncAll(m, env, clock, rows, records);
            var second := SyncAll(m, env2, clock2, first.rows, records);
            second.report.inserted == 0 && Cores(m, second.rows) == Cores(m, first.rows)
  {
    var first := SyncAll(m, env, clock, rows, records);
    var second := SyncAll(m, env2, clock2, first.rows, records);
    SyncIsPutAll(m, env, clock, rows, records, first);
    SyncIsPutAll(m, env2, clock2, first.rows, records, second);
    PutAllIdempotent(m, Cores(m, rows), records);
    assert |second.rows| == |Cores(m, second.rows)| && |first.rows| == |Cores(m, first.rows)|;
  }

  /** Constraints that do not look at audit columns. */
  ghost predicate BlindToAudit(m: Model, accepts: seq<Row> -> bool) {
    forall a, b :: Typed(m, a) && Typed(m, b) && Cores(m, a) == Cores(m, b) ==> accepts(a) == accepts(b)
  }

  predicate DistinctKeys(m: Model, records: seq<Row>) {
    forall i, j :: 0 <= i < j < |records| ==> !SameKey(m, records[i], records[j])
  }

  /** The table already says what the record says. */
  predicate Agreed(m: Model, rows: seq<Row>, r: Row) {
    ExactlyOnce(m, rows, r) && Put(m, Cores(m, rows), r) == Cores(m, rows)
  }

  lemma {:induction false} SelectNone(rows: seq<Row>, filters: seq<Filter>)
    requires forall i :: 0 <= i < |rows| ==> !Satisfies(rows[i], filters)
    ensures Select(rows, filters) == []
  {
    if rows != [] { SelectNone(rows[1..], filters); }
  }

  lemma {:induction false} FoundOnce(rows: seq<Row>, filters: seq<Filter>, at: nat)
    requires at < |rows| && Satisfies(rows[at], filters)
    requires forall i :: 0 <= i < |rows| && i != at ==> !Satisfies(rows[i], filters)
    ensures |Select(rows, filters)| == 1
  {
    var rest := rows[1..];
    assert forall j :: 0 < j < |rows| ==> rows[j] == rest[j - 1];
    if at == 0 { SelectNone(rest, filters); } else { FoundOnce(rest, filters, at - 1); }
  }

  lemma AgreedIsFound(m: Model, rows: seq<Row>, r: Row)
    requires Suited(m) && Typed(m, rows) && KeyError(m.keys, r).None? && ExactlyOnce(m, rows, r)
    ensures (forall i :: 0 <= i < |m.keys| ==> m.keys[i] in r) && |Select(rows, Pairs(m.keys, r))| == 1
  {
    FoundIsPresent(m, rows, r);
    var at :| 0 <= at < |rows| && SameKey(m, Cores(m, rows)[at], r);
    FoundOnce(rows, Pairs(m.keys, r), at);
  }

  // ------------------------------------------------------------- what one record's attempt answers

  /** The two say the same in every column the comparison looks at. */
  ghost predicate SaysTheSame(m: Model, row: Row, r: Row) {
    forall c :: c in m.columns && c !in m.ignored ==> c in row && c in r && row[c] == r[c]
  }

  /** Every column is a key, or a creator or deleter that the row has not got: an update would set nothing. */
  ghost predicate NothingToSet(m: Model, row: Row) {
    forall c :: c in m.columns ==>
      m.columns[c].PrimaryKey? || ((m.columns[c].CreatedBy? || m.columns[c].DeletedBy?) && c in row && row[c] == 0)
  }

  lemma KeysAlike(m: Model, rows: seq<Row>, r: Row, i: nat)
    requires Suited(m) && Typed(m, rows) && KeyError(m.keys, r).None? && i < |rows|
    ensures forall j :: 0 <= j < |m.keys| ==> m.keys[j] in r
    ensures Satisfies(rows[i], Pairs(m.keys, r)) <==> SameKey(m, rows[i], r)
  {
    KeyFilters(m, rows[i], r);
  }

  /** The one row with the record's key is what the search finds. */
  lemma FoundAlone(m: Model, rows: seq<Row>, r: Row, i: nat)
    requires Suited(m) && Typed(m, rows) && KeyError(m.keys, r).None? && i < |rows| && SameKey(m, rows[i], r)
    requires forall j :: 0 <= j < |rows| && j != i ==> !SameKey(m, rows[j], r)
    ensures (forall j :: 0 <= j < |m.keys| ==> m.keys[j] in r) && Select(rows, Pairs(m.keys, r)) == [rows[i]]
  {
    KeysAlike(m, rows, r, i);
    forall j | 0 <= j < |rows| ensures Satisfies(rows[j], Pairs(m.keys, r)) <==> SameKey(m, rows[j], r) {
      KeysAlike(m, rows, r, j);
    }
    FoundOnce(rows, Pairs(m.keys, r), i);
    SelectCounts(rows, Pairs(m.keys, r));
  }

  /**
   * With one row of the record's key: it is skipped exactly if it says the same, and otherwise updated, unless an
   * update has to record a user that is not there, would set nothing, or is refused by the constraints.
   */
  lemma UpdateAnswers(m: Model, env: Env, rows: seq<Row>, r: Row, now: Value, i: nat)
    requires Suited(m) && Typed(m, rows) && r.Keys == m.columns.Keys && KeyError(m.keys, r).None? && i < |rows|
    requires SameKey(m, rows[i], r) && forall j :: 0 <= j < |rows| && j != i ==> !SameKey(m, rows[j], r)
    ensures var answer := Attempt(m, env, rows, r, now);
            var recorded := exists c :: c in m.columns && m.columns[c].UpdatedBy?;
            if SaysTheSame(m, rows[i], r) then answer == Success((Skipped, rows))
            else if recorded && env.user.None? then answer == Failure(MissingUser)
            else if NothingToSet(m, rows[i]) then answer == Failure(NoUpdatableColumns)
            else answer == Failure(Refused) || (answer.Success? && answer.value.0 == Updated)
  {
    FoundAlone(m, rows, r, i);
    SameMeans(m, rows[i], r);
    SettableMeans(m, r, rows[i]);
  }

  lemma SameMeans(m: Model, row: Row, r: Row)
    requires row.Keys == m.columns.Keys == r.Keys
    ensures Same(m, row, r) <==> SaysTheSame(m, row, r)
  {
    if SaysTheSame(m, row, r) { assert row - m.ignored == r - m.ignored; }
    forall c | c in m.columns && c !in m.ignored
      ensures c in row - m.ignored && (row - m.ignored)[c] == row[c] && (r - m.ignored)[c] == r[c]
    { }
  }

  lemma SettableMeans(m: Model, r: Row, row: Row)
    requires row.Keys == m.columns.Keys == r.Keys
    ensures AnythingToSet(m.columns, Merged(m.columns, r, row)) <==> !NothingToSet(m, row)
  {
    var merged := Merged(m.columns, r, row);
    forall c | c in m.columns
      ensures c in merged && (m.columns[c].CreatedBy? || m.columns[c].DeletedBy? ==> merged[c] == row[c])
    { }
    if !NothingToSet(m, row) {
      var c :| c in m.columns && !m.columns[c].PrimaryKey?
               && !((m.columns[c].CreatedBy? || m.columns[c].DeletedBy?) && row[c] == 0);
      assert c in merged;
    }
  }

  /** With no such row it is inserted, unless a user is missing or the constraints refuse; with two it is ambiguous. */
  lemma InsertAnswers(m: Model, env: Env, rows: seq<Row>, r: Row, now: Value)
    requires Suited(m) && Typed(m, rows) && r.Keys == m.columns.Keys && KeyError(m.keys, r).None?
    requires forall j :: 0 <= j < |rows| ==> !SameKey(m, rows[j], r)
    ensures var answer := Attempt(m, env, rows, r, now);
            var recorded := exists c :: c in m.columns
                              && (m.columns[c].CreatedBy? || m.columns[c].UpdatedBy? || m.columns[c].DeletedBy?);
            if recorded && env.user.None? then answer == Failure(MissingUser)
            else answer == Failure(Refused) || (answer.Success? && answer.value.0 == Inserted)
  {
    KeysPresent(m.keys, r);
    forall j | 0 <= j < |rows| ensures !Satisfies(rows[j], Pairs(m.keys, r)) { KeysAlike(m, rows, r, j); }
    SelectNone(rows, Pairs(m.keys, r));
  }

  lemma TwoAreAmbiguous(m: Model, env: Env, rows: seq<Row>, r: Row, now: Value, i: nat, j: nat)
    requires Suited(m) && Typed(m, rows) && KeyError(m.keys, r).None? && i < j < |rows|
    requires SameKey(m, rows[i], r) && SameKey(m, rows[j], r)
    ensures Attempt(m, env, rows, r, now) == Failure(Conflict)
  {
    KeysAlike(m, rows, r, i);
    KeysAlike(m, rows, r, j);
    SelectCounts(rows, Pairs(m.keys, r));
  }

  lemma {:induction false} ProcessAccepted(m: Model, env: Env, clock: nat -> Value, rows: seq<Row>, records: seq<Row>,
                                           report: Report)
    requires env.accepts(rows)
    ensures env.accepts(Process(m, env, clock, rows, records, report).rows)
    ensures Process(m, env, clock, rows, records, report).error.None? ==> forall r :: r in records ==>
            KeyError(m.keys, r).None?
    decreases |records|
  {
    if records != [] {
      var attempt := Attempt(m, env, rows, records[0], clock(Total(report)));
      if attempt.Success? {
        ProcessAccepted(m, env, clock, attempt.value.1, records[1..], Count(report, attempt.value.0));
      }
    }
  }

  // --------------------------------------------------- when the second Sync goes through

  /** An update needs a user if a column records who did it, and something to set. */
  predicate Updatable(m: Model, env: Env, r: Row) {
    (NeedsUser(m.columns, false) ==> env.user.Some?) && AnythingToSet(m.columns, r)
  }

  /** No record is stopped on its own account: its row says the same, or can be updated. */
  predicate Served(m: Model, env: Env, rows: seq<Row>, r: Row) {
    KeyError(m.keys, r).None? &&
    (KeysPresent(m.keys, r);
     var found := Select(rows, Pairs(m.keys, r));
     |found| == 1 && (Same(m, found[0], r) || Updatable(m, env, Merged(m.columns, r, found[0]))))
  }

  /** The constraints accept the table with these cores, whatever its audit columns hold. */
  ghost predicate AcceptsCores(m: Model, accepts: seq<Row> -> bool, cores: seq<Row>) {
    forall rows :: Typed(m, rows) && Cores(m, rows) == cores ==> accepts(rows)
  }

  /** They accept every table on the way when the records are put one after the other. */
  ghost predicate AllAccepted(m: Model, accepts: seq<Row> -> bool, cores: seq<Row>, records: seq<Row>)
    decreases |records|
  {
    records == [] ||
    (AcceptsCores(m, accepts, Put(m, cores, records[0])) &&
        AllAccepted(m, accepts, Put(m, cores, records[0]), records[1..]))
  }

  /** A record with exactly one row goes through exactly if it is served and its put is accepted. */
  lemma AttemptAgain(m: Model, env: Env, rows: seq<Row>, r: Row, now: Value)
    requires Suited(m) && Typed(m, rows) && r.Keys == m.columns.Keys && KeyError(m.keys, r).None? &&
             ExactlyOnce(m, rows, r)
    requires env.accepts(rows) && BlindToAudit(m, env.accepts)
    ensures Attempt(m, env, rows, r, now).Success?
       <==> Served(m, env, rows, r) && AcceptsCores(m, env.accepts, Put(m, Cores(m, rows), r))
    ensures Attempt(m, env, rows, r, now).Success? ==> env.accepts(Attempt(m, env, rows, r, now).value.1)
  {
    AgreedIsFound(m, rows, r);
    var current := Select(rows, Pairs(m.keys, r))[0];
    if Same(m, current, r) {
      SkipIsPut(m, rows, r);
    } else {
      UpdateIsPut(m, rows, r, current, now, UserOf(env));
    }
  }

  /** Some column that every update sets. */
  predicate AlwaysSets(m: Model) {
    exists c :: c in m.columns && SetAnyway(m.columns[c])
  }

  predicate SetAnyway(k: Kind) {
    k.Plain? || k.CreatedAt? || k.UpdatedAt? || k.UpdatedBy?
  }

  lemma AlwaysSomething(m: Model, r: Row, current: Row)
    requires AlwaysSets(m) && r.Keys == m.columns.Keys
    ensures AnythingToSet(m.columns, Merged(m.columns, r, current))
  {
    var c :| c in m.columns && SetAnyway(m.columns[c]);
    assert c in Merged(m.columns, r, current);
  }

  /** Without such a column an update leaves the row it finds as it is. */
  lemma NothingToChange(m: Model, env: Env, rows: seq<Row>, r: Row, i: nat, now: Value, rows': seq<Row>)
    requires Suited(m) && Typed(m, rows) && r.Keys == m.columns.Keys && KeyError(m.keys, r).None? && i < |rows|
    requires !AlwaysSets(m) && Attempt(m, env, rows, r, now) == Success((Updated, rows'))
    ensures |rows'| == |rows| && rows'[i] == rows[i]
  {
    UpdateKeepsCreation(m, env, rows, r, i, now, rows');
    FoundIsPresent(m, rows, r);
    UpdateIsPut(m, rows, r, Select(rows, Pairs(m.keys, r))[0], now, UserOf(env));
    forall c | c in m.columns ensures !SetAnyway(m.columns[c]) { }
  }

  /** A record is served if updates can find their user and the table has a column that every update sets. */
  lemma ServedAnyway(m: Model, env: Env, rows: seq<Row>, r: Row)
    requires Suited(m) && Typed(m, rows) && r.Keys == m.columns.Keys && KeyError(m.keys, r).None? &&
             ExactlyOnce(m, rows, r)
    requires AlwaysSets(m) && (NeedsUser(m.columns, false) ==> env.user.Some?)
    ensures Served(m, env, rows, r)
  {
    AgreedIsFound(m, rows, r);
    AlwaysSomething(m, r, Select(rows, Pairs(m.keys, r))[0]);
  }

  /** An updating attempt either leaves the table as it is, or is one of those that serve everyone. */
  lemma UpdateServes(m: Model, env: Env, rows: seq<Row>, r: Row, now: Value, rows': seq<Row>)
    requires Suited(m) && Typed(m, rows) && r.Keys == m.columns.Keys && KeyError(m.keys, r).None?
    requires Attempt(m, env, rows, r, now) == Success((Updated, rows'))
    ensures NeedsUser(m.columns, false) ==> env.user.Some?
    ensures !AlwaysSets(m) ==> rows' == rows
  {
    if !AlwaysSets(m) {
      AttemptIsPut(m, env, rows, r, now);
      assert |rows'| == |Cores(m, rows')| == |Put(m, Cores(m, rows), r)| == |rows|;
      forall i | 0 <= i < |rows| ensures rows'[i] == rows[i] { NothingToChange(m, env, rows, r, i, now, rows'); }
    }
  }

  /** A record that has gone through changes nothing about who is served. */
  lemma StillServed(m: Model, env: Env, rows: seq<Row>, r: Row, now: Value, action: Action, rows': seq<Row>, q: Row)
    requires Suited(m) && Typed(m, rows) && r.Keys == m.columns.Keys == q.Keys && KeyError(m.keys, r).None? &&
             KeyError(m.keys, q).None?
    requires ExactlyOnce(m, rows, r) && ExactlyOnce(m, rows, q) &&
             Attempt(m, env, rows, r, now) == Success((action, rows'))
    ensures Typed(m, rows') && Cores(m, rows') == Put(m, Cores(m, rows), r) && ExactlyOnce(m, rows', q)
    ensures Served(m, env, rows', q) <==> Served(m, env, rows, q)
  {
    AttemptIsPut(m, env, rows, r, now);
    PutKeepsPresence(m, Cores(m, rows), r, q);
    match action {
      case Inserted =>
      case Skipped => SkippedStays(m, env, rows, r, now, rows');
      case Updated =>
        UpdateServes(m, env, rows, r, now, rows');
        if AlwaysSets(m) {
          ServedAnyway(m, env, rows, q);
          ServedAnyway(m, env, rows', q);
        }
    }
  }

  lemma SkippedStays(m: Model, env: Env, rows: seq<Row>, r: Row, now: Value, rows': seq<Row>)
    requires Attempt(m, env, rows, r, now) == Success((Skipped, rows'))
    ensures rows' == rows
  {
  }

  predicate AllServed(m: Model, env: Env, rows: seq<Row>, records: seq<Row>) {
    forall r :: r in records ==> Served(m, env, rows, r)
  }

  lemma AllServedFirst(m: Model, env: Env, rows: seq<Row>, records: seq<Row>)
    requires records != []
    ensures AllServed(m, env, rows, records) <==>
            Served(m, env, rows, records[0]) && AllServed(m, env, rows, records[1..])
  {
    assert records[0] in records && forall r :: r in records <==> r == records[0] || r in records[1..];
  }

  lemma RestStillServed(m: Model, env: Env, rows: seq<Row>, r: Row, now: Value, action: Action, rows': seq<Row>,
                        rest: seq<Row>)
    requires Suited(m) && Typed(m, rows) && Typed(m, rest) && r.Keys == m.columns.Keys && KeyError(m.keys, r).None? &&
             ExactlyOnce(m, rows, r)
    requires forall q :: q in rest ==> KeyError(m.keys, q).None? && ExactlyOnce(m, rows, q)
    requires Attempt(m, env, rows, r, now) == Success((action, rows'))
    ensures forall q :: q in rest ==> ExactlyOnce(m, rows', q)
    ensures AllServed(m, env, rows', rest) <==> AllServed(m, env, rows, rest)
  {
    forall q | q in rest ensures ExactlyOnce(m, rows', q) && (Served(m, env, rows', q) <==> Served(m, env, rows, q)) {
      var k :| 0 <= k < |rest| && rest[k] == q;
      StillServed(m, env, rows, r, now, action, rows', q);
    }
  }

  lemma {:induction false} ProcessAgain(m: Model, env: Env, clock: nat -> Value, rows: seq<Row>, records: seq<Row>,
                                        report: Report)
    requires Suited(m) && Typed(m, rows) && Typed(m, records) && env.accepts(rows) && BlindToAudit(m, env.accepts)
    requires forall r :: r in records ==> KeyError(m.keys, r).None? && ExactlyOnce(m, rows, r)
    ensures Process(m, env, clock, rows, records, report).error.None?
       <==> AllServed(m, env, rows, records) && AllAccepted(m, env.accepts, Cores(m, rows), records)
    decreases |records|
  {
    if records != [] {
      var r, rest, now := records[0], records[1..], clock(Total(report));
      assert r in records && forall q :: q in rest ==> q in records;
      AttemptAgain(m, env, rows, r, now);
      AllServedFirst(m, env, rows, records);
      var attempt := Attempt(m, env, rows, r, now);
      if attempt.Success? {
        var (action, rows') := attempt.value;
        AttemptIsPut(m, env, rows, r, now);
        RestStillServed(m, env, rows, r, now, action, rows', rest);
        ProcessAgain(m, env, clock, rows', rest, Count(report, action));
      }
    }
  }

  lemma {:induction false} LastForDistinct(m: Model, row: Row, records: seq<Row>, k: nat)
    requires DistinctKeys(m, records) && k < |records| && SameKey(m, row, records[k])
    ensures LastFor(m, row, records) == Some(records[k])
  {
    LastForIsRecord(m, row, records);
    var q := LastFor(m, row, records).value;
    var j :| 0 <= j < |records| && records[j] == q;
    if j != k {
      assert SameKey(m, records[j], records[k]) && SameKey(m, records[k], records[j]);
    }
  }

  lemma RecordAgreed(m: Model, cores: seq<Row>, rows: seq<Row>, records: seq<Row>, k: nat)
    requires Suited(m) && Typed(m, records) && DistinctKeys(m, records) && k < |records|
    requires Unambiguous(m, cores, records) && Cores(m, rows) == PutAll(m, cores, records)
    ensures Agreed(m, rows, records[k])
  {
    var r, now := records[k], Cores(m, rows);
    RecordsPresent(m, cores, records, r);
    forall i | 0 <= i < |rows| && SameKey(m, now[i], r) ensures Overwrite(m, now[i], r) == now[i] {
      AllSettled(m, cores, records, i);
      LastForDistinct(m, now[i], records, k);
    }
    assert Put(m, now, r) == now;
  }

  /** A Sync of records that all have their row. */
  lemma SyncOfPresent(m: Model, env: Env, clock: nat -> Value, rows: seq<Row>, records: seq<Row>, out: Outcome)
    requires Suited(m) && Typed(m, rows) && Typed(m, records) && env.accepts(rows) && BlindToAudit(m, env.accepts)
    requires forall r :: r in records ==> KeyError(m.keys, r).None? && ExactlyOnce(m, rows, r)
    requires m.keys != [] && out == SyncAll(m, env, clock, rows, records)
    ensures out.error.None? <==>
            AllServed(m, env, rows, records) && AllAccepted(m, env.accepts, Cores(m, rows), records)
  {
    var zero := SyncStarts(m, env, clock, rows, records, out);
    ProcessAgain(m, env, clock, rows, records, zero);
  }

  /** The state a successful first Sync leaves behind. */
  lemma FirstSync(m: Model, env: Env, clock: nat -> Value, rows: seq<Row>, records: seq<Row>, first: Outcome)
    requires Suited(m) && Typed(m, rows) && Typed(m, records) && env.accepts(rows)
    requires first == SyncAll(m, env, clock, rows, records) && first.error.None?
    ensures m.keys != [] && Typed(m, first.rows) && env.accepts(first.rows)
    ensures Cores(m, first.rows) == PutAll(m, Cores(m, rows), records) && Unambiguous(m, Cores(m, rows), records)
    ensures forall r :: r in records ==> KeyError(m.keys, r).None? && ExactlyOnce(m, first.rows, r)
  {
    var zero := SyncStarts(m, env, clock, rows, records, first);
    ProcessIsPutAll(m, env, clock, rows, records, zero);
    ProcessAccepted(m, env, clock, rows, records, zero);
    forall r | r in records ensures ExactlyOnce(m, first.rows, r) { RecordsPresent(m, Cores(m, rows), records, r); }
  }

  /**
   * A second identical Sync goes through if and only if no record is stopped on its own account and the constraints
   * accept every table on the way from the reconciled one, with the records put once more in their order.
   */
  lemma SecondSyncIff(m: Model, env: Env, clock: nat -> Value, rows: seq<Row>, records: seq<Row>, first: Outcome,
                      env2: Env, clock2: nat -> Value, second: Outcome)
    requires Suited(m) && Typed(m, rows) && Typed(m, records)
    requires env.accepts(rows) && BlindToAudit(m, env.accepts) && env2.accepts == env.accepts
    requires first == SyncAll(m, env, clock, rows, records) && first.error.None?
    requires second == SyncAll(m, env2, clock2, first.rows, records)
    ensures second.error.None?
       <==> AllServed(m, env2, first.rows, records) && AllAccepted(m, env2.accepts, Cores(m, first.rows), records)
  {
    FirstSync(m, env, clock, rows, records, first);
    SyncOfPresent(m, env2, clock2, first.rows, records, second);
  }

  lemma {:induction false} AgreedAccepted(m: Model, accepts: seq<Row> -> bool, cores: seq<Row>, records: seq<Row>)
    requires AcceptsCores(m, accepts, cores) && forall r :: r in records ==> Put(m, cores, r) == cores
    ensures AllAccepted(m, accepts, cores, records)
    decreases |records|
  {
    if records != [] {
      assert records[0] in records && forall r :: r in records[1..] ==> r in records;
      AgreedAccepted(m, accepts, cores, records[1..]);
    }
  }

  /** With one record per key the constraints have nothing to refuse the second time: being served decides. */
  lemma SecondSyncSucceeds(m: Model, env: Env, clock: nat -> Value, rows: seq<Row>, records: seq<Row>, first: Outcome,
                           env2: Env, clock2: nat -> Value, second: Outcome)
    requires Suited(m) && Typed(m, rows) && Typed(m, records) && DistinctKeys(m, records)
    requires env.accepts(rows) && BlindToAudit(m, env.accepts) && env2.accepts == env.accepts
    requires first == SyncAll(m, env, clock, rows, records) && first.error.None?
    requires second == SyncAll(m, env2, clock2, first.rows, records)
    ensures second.error.None? <==> AllServed(m, env2, first.rows, records)
    ensures AlwaysSets(m) && (NeedsUser(m.columns, false) ==> env2.user.Some?) ==> second.error.None?
  {
    SecondSyncIff(m, env, clock, rows, records, first, env2, clock2, second);
    FirstSync(m, env, clock, rows, records, first);
    forall r | r in records ensures Put(m, Cores(m, first.rows), r) == Cores(m, first.rows) {
      var k :| 0 <= k < |records| && records[k] == r;
      RecordAgreed(m, Cores(m, rows), first.rows, records, k);
    }
    AgreedAccepted(m, env2.accepts, Cores(m, first.rows), records);
    if AlwaysSets(m) && (NeedsUser(m.columns, false) ==> env2.user.Some?) {
      forall r | r in records ensures Served(m, env2, first.rows, r) {
        var k :| 0 <= k < |records| && records[k] == r;
        ServedAnyway(m, env2, first.rows, r);
      }
    }
  }

  // ------------------------------------------------ several records with one key

  function Pair(k: Value, x: Value): Row {
    map["k" := k, "x" := x]
  }

  /** A table with a key k and a column x without duplicates. */
  function KeyedModel(): Model {
    Model(map["k" := Plain, "x" := Plain], ["k"], {})
  }

  predicate NoDuplicateX(rows: seq<Row>) {
    forall i, j :: 0 <= i < j < |rows| && "x" in rows[i] && "x" in rows[j] ==> rows[i]["x"] != rows[j]["x"]
  }

  function UniqueX(): Env {
    Env(NoDuplicateX, None)
  }

  lemma PairKey(k: Value, x: Value)
    requires k != 0
    ensures KeyError(["k"], Pair(k, x)).None? && Pairs(["k"], Pair(k, x)) == [("k", k)]
  {
    assert ["k"][1..] == [];
  }

  lemma PairInserted(rows: seq<Row>, k: Value, x: Value, now: Value)
    requires k != 0 && Select(rows, [("k", k)]) == []
    ensures Attempt(KeyedModel(), UniqueX(), rows, Pair(k, x), now)
            == if NoDuplicateX(rows + [Pair(k, x)]) then Success((Inserted, rows + [Pair(k, x)])) else Failure(Refused)
  {
    var m, env := KeyedModel(), UniqueX();
    PairKey(k, x);
    assert NewRow(m.columns, Pair(k, x), now, UserOf(env)) == Pair(k, x);
  }

  lemma PairUpdated(rows: seq<Row>, k: Value, was: Value, x: Value, now: Value, rows': seq<Row>)
    requires k != 0 && was != x && Select(rows, [("k", k)]) == [Pair(k, was)] && |rows'| == |rows|
    requires forall i :: 0 <= i < |rows| ==> rows'[i] == if Satisfies(rows[i], [("k", k)]) then Pair(k, x) else rows[i]
    requires forall i :: 0 <= i < |rows| ==> rows[i].Keys == {"k", "x"}
    ensures Attempt(KeyedModel(), UniqueX(), rows, Pair(k, x), now) == if NoDuplicateX(rows') then
            Success((Updated, rows')) else Failure(Refused)
  {
    var m, env := KeyedModel(), UniqueX();
    PairKey(k, x);
    assert (Pair(k, was) - m.ignored)["x"] != (Pair(k, x) - m.ignored)["x"];
    var merged := Merged(m.columns, Pair(k, x), Pair(k, was));
    assert merged == Pair(k, x);
    assert "x" in m.columns && "x" in merged && AnythingToSet(m.columns, merged);
    forall i | 0 <= i < |rows|
      ensures AssignWhere(m.columns, rows, [("k", k)], merged, now, UserOf(env))[i] == rows'[i]
    {
      if Satisfies(rows[i], [("k", k)]) {
        assert [("k", k)][0] == ("k", k);
        assert Assign(m.columns, rows[i], merged, now, UserOf(env)) == Pair(k, x);
      }
    }
    assert AssignWhere(m.columns, rows, [("k", k)], merged, now, UserOf(env)) == rows';
  }

  lemma SelectTwo(a: Row, b: Row, filters: seq<Filter>)
    ensures Select([], filters) == []
    ensures Select([a], filters) == if Satisfies(a, filters) then [a] else []
    ensures Select([a, b], filters) == (if Satisfies(a, filters) then [a] else []) +
            (if Satisfies(b, filters) then [b] else [])
  {
    assert [a][1..] == [] && [a, b][1..] == [b] && [b][1..] == [];
  }

  lemma PairSatisfies(j: Value, x: Value, k: Value)
    ensures Satisfies(Pair(j, x), [("k", k)]) <==> j == k
  {
    assert [("k", k)][0] == ("k", k);
  }

  lemma FirstStep(k: Value, x: Value, now: Value)
    requires k != 0
    ensures Attempt(KeyedModel(), UniqueX(), [], Pair(k, x), now) == Success((Inserted, [Pair(k, x)]))
  {
    SelectTwo(Pair(k, x), Pair(k, x), [("k", k)]);
    PairInserted([], k, x, now);
    assert [] + [Pair(k, x)] == [Pair(k, x)];
  }

  lemma SecondStep(k: Value, x: Value, y: Value, now: Value)
    requires k != 0 && x != y
    ensures Attempt(KeyedModel(), UniqueX(), [Pair(k, x)], Pair(k, y), now) == Success((Updated, [Pair(k, y)]))
  {
    SelectTwo(Pair(k, x), Pair(k, x), [("k", k)]);
    PairSatisfies(k, x, k);
    PairUpdated([Pair(k, x)], k, x, y, now, [Pair(k, y)]);
  }

  lemma ThirdStep(k: Value, x: Value, y: Value, j: Value, now: Value)
    requires j != 0 && k != j && x != y
    ensures Attempt(KeyedModel(), UniqueX(), [Pair(k, y)], Pair(j, x), now)
            == Success((Inserted, [Pair(k, y), Pair(j, x)]))
  {
    SelectTwo(Pair(k, y), Pair(k, y), [("k", j)]);
    PairSatisfies(k, y, j);
    PairInserted([Pair(k, y)], j, x, now);
    assert [Pair(k, y)] + [Pair(j, x)] == [Pair(k, y), Pair(j, x)];
  }

  lemma RefusedStep(k: Value, x: Value, y: Value, j: Value, now: Value)
    requires k != 0 && k != j && x != y
    ensures Attempt(KeyedModel(), UniqueX(), [Pair(k, y), Pair(j, x)], Pair(k, x), now) == Failure(Refused)
  {
    var rows, rows' := [Pair(k, y), Pair(j, x)], [Pair(k, x), Pair(j, x)];
    SelectTwo(Pair(k, y), Pair(j, x), [("k", k)]);
    PairSatisfies(k, y, k);
    PairSatisfies(j, x, k);
    PairUpdated(rows, k, y, x, now, rows');
    assert rows'[0]["x"] == rows'[1]["x"];
  }

  /** One record processed. */
  lemma Continue(m: Model, env: Env, clock: nat -> Value, rows: seq<Row>, records: seq<Row>, report: Report, now: Value,
                 action: Action, next: seq<Row>, out: Outcome)
    requires records != [] && now == clock(Total(report)) &&
             Attempt(m, env, rows, records[0], now) == Success((action, next))
    requires Process(m, env, clock, next, records[1..], Count(report, action)) == out
    ensures Process(m, env, clock, rows, records, report) == out
  {
  }

  lemma Stop(m: Model, env: Env, clock: nat -> Value, rows: seq<Row>, r: Row, rest: seq<Row>, report: Report, e: Error)
    requires Attempt(m, env, rows, r, clock(Total(report))) == Failure(e)
    ensures Process(m, env, clock, rows, [r] + rest, report) == Outcome(rows, report, Some(e))
  {
    assert ([r] + rest)[0] == r;
  }

  lemma LastGoes(m: Model, env: Env, clock: nat -> Value, rows: seq<Row>, records: seq<Row>, report: Report, now: Value,
                 action: Action, next: seq<Row>)
    requires |records| == 1 && now == clock(Total(report)) &&
             Attempt(m, env, rows, records[0], now) == Success((action, next))
    ensures Process(m, env, clock, rows, records, report) == Outcome(next, Count(report, action), None)
  {
    assert records[1..] == [];
  }

  lemma SyncProcesses(m: Model, env: Env, clock: nat -> Value, rows: seq<Row>, records: seq<Row>, zero: Report)
    requires m.keys != [] && zero == Report(0, 0, 0)
    ensures SyncAll(m, env, clock, rows, records) == Process(m, env, clock, rows, records, zero)
  {
  }

  /** Three records whose attempts go through one after the other. */
  lemma AllGo(m: Model, env: Env, clock: nat -> Value, rows: seq<Row>, records: seq<Row>, one: seq<Row>, two: seq<Row>,
              three: seq<Row>,
              zero: Report, first: Report, second: Report, out: Outcome)
    requires m.keys != [] && |records| == 3 && zero == Report(0, 0, 0) && first == Count(zero, Inserted) &&
             second == Count(first, Updated)
    requires Attempt(m, env, rows, records[0], clock(0)) == Success((Inserted, one))
    requires Attempt(m, env, one, records[1], clock(1)) == Success((Updated, two))
    requires Attempt(m, env, two, records[2], clock(2)) == Success((Inserted, three))
    requires out == Outcome(three, Count(second, Inserted), None)
    ensures SyncAll(m, env, clock, rows, records) == out
  {
    var last, end := records[1..], records[1..][1..];
    assert last[0] == records[1] && end[0] == records[2];
    LastGoes(m, env, clock, two, end, second, clock(2), Inserted, three);
    Continue(m, env, clock, one, last, first, clock(1), Updated, two, out);
    Continue(m, env, clock, rows, records, zero, clock(0), Inserted, one, out);
    SyncProcesses(m, env, clock, rows, records, zero);
  }

  /** The same records again: the first of them is refused. */
  lemma StopsAtOnce(m: Model, env: Env, clock: nat -> Value, rows: seq<Row>, r: Row, rest: seq<Row>, records: seq<Row>)
    requires m.keys != [] && records == [r] + rest && Attempt(m, env, rows, r, clock(0)) == Failure(Refused)
    ensures SyncAll(m, env, clock, rows, records).error == Some(Refused)
  {
    var zero := Report(0, 0, 0);
    SyncProcesses(m, env, clock, rows, records, zero);
    Stop(m, env, clock, rows, r, rest, zero, Refused);
  }

  /**
   * With several records per key a second identical Sync can be refused: x is unique, and the second Sync puts the
   * first record's x back under key k while key j holds it.
   */
  lemma SecondSyncCanBeRefused(k: Value, j: Value, x: Value, y: Value, clock: nat -> Value, records: seq<Row>)
    requires k != 0 && j != 0 && k != j && x != y && records == [Pair(k, x)] + ([Pair(k, y)] + ([Pair(j, x)] + []))
    ensures SyncAll(KeyedModel(), UniqueX(), clock, [], records)
            == Outcome([Pair(k, y), Pair(j, x)], Report(2, 1, 0), None)
    ensures SyncAll(KeyedModel(), UniqueX(), clock, [Pair(k, y), Pair(j, x)], records).error == Some(Refused)
  {
    FirstStep(k, x, clock(0));
    SecondStep(k, x, y, clock(1));
    ThirdStep(k, x, y, j, clock(2));
    RefusedStep(k, x, y, j, clock(0));
    AllGo(KeyedModel(), UniqueX(), clock, [], records, [Pair(k, x)], [Pair(k, y)], [Pair(k, y), Pair(j, x)],
          Report(0, 0, 0), Report(1, 0, 0), Report(1, 1, 0), Outcome([Pair(k, y), Pair(j, x)], Report(2, 1, 0), None));
    StopsAtOnce(KeyedModel(), UniqueX(), clock, [Pair(k, y), Pair(j, x)], Pair(k, x),
        [Pair(k, y)] + ([Pair(j, x)] + []), records);
  }
}
