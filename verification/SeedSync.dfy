/** seed/seed.go: Sync, which makes a table hold the desired records. */
module SeedSync {
  import opened Wrappers

  /** Column values; 0 stands for the zero value of the column's type. */
  type Value = int
  type Row = map<string, Value>

  datatype Kind = Plain | PrimaryKey | CreatedAt | UpdatedAt | CreatedBy | UpdatedBy | DeletedBy

  predicate IsAudit(k: Kind) {
    !k.Plain? && !k.PrimaryKey?
  }

  predicate IsUser(k: Kind) {
    k.CreatedBy? || k.UpdatedBy? || k.DeletedBy?
  }

  /** The columns of the model, the key fields given to Sync, and the columns its comparison leaves out. */
  datatype Model = Model(columns: map<string, Kind>, keys: seq<string>, ignored: set<string>)

  /** The database's constraints, and the user of the access context. */
  datatype Env = Env(accepts: seq<Row> -> bool, user: Option<Value>)

  datatype Error = NoKeys | MissingKeyField | ZeroKey | Conflict | MissingUser | NoUpdatableColumns | Refused
  datatype Action = Inserted | Updated | Skipped
  datatype Report = Report(inserted: nat, updated: nat, skipped: nat)

  // ---------------------------------------------------------------- finding the row

  type Filter = (string, Value)

  predicate Satisfies(row: Row, filters: seq<Filter>) {
    forall i :: 0 <= i < |filters| ==> filters[i].0 in row && row[filters[i].0] == filters[i].1
  }

  function Select(rows: seq<Row>, filters: seq<Filter>): seq<Row> {
    if rows == [] then [] else (if Satisfies(rows[0], filters) then [rows[0]] else []) + Select(rows[1..], filters)
  }

  function KeyError(keys: seq<string>, r: Row): Option<Error> {
    if keys == [] then None
    else if keys[0] !in r then Some(MissingKeyField)
    else if r[keys[0]] == 0 then Some(ZeroKey)
    else KeyError(keys[1..], r)
  }

  lemma {:induction false} KeysPresent(keys: seq<string>, r: Row)
    requires KeyError(keys, r).None?
    ensures forall i :: 0 <= i < |keys| ==> keys[i] in r && r[keys[i]] != 0
  {
    if keys != [] {
      KeysPresent(keys[1..], r);
      assert forall i :: 0 < i < |keys| ==> keys[i] == keys[1..][i - 1];
    }
  }

  function Pairs(keys: seq<string>, r: Row): seq<Filter>
    requires forall i :: 0 <= i < |keys| ==> keys[i] in r
  {
    seq(|keys|, i requires 0 <= i < |keys| => (keys[i], r[keys[i]]))
  }

  method BuildSeedFilters(record: Row, keys: seq<string>) returns (opts: Result<seq<Filter>, Error>)
    ensures KeyError(keys, record).Some? ==> opts == Failure(KeyError(keys, record).value)
    ensures KeyError(keys, record).None? ==>
              (forall i :: 0 <= i < |keys| ==> keys[i] in record) && opts == Success(Pairs(keys, record))
  {
    var filters: seq<Filter> := [];
    for i := 0 to |keys|
      invariant KeyError(keys, record) == KeyError(keys[i..], record)
      invariant forall j :: 0 <= j < i ==> keys[j] in record
      invariant filters == Pairs(keys[..i], record)
    {
      assert keys[i..][0] == keys[i] && keys[i..][1..] == keys[i + 1..];
      if keys[i] !in record { return Failure(MissingKeyField); }
      if record[keys[i]] == 0 { return Failure(ZeroKey); }
      filters := filters + [(keys[i], record[keys[i]])];
    }
    assert keys[..|keys|] == keys;
    opts := Success(filters);
  }

  // ----------------------------------------------------------------- writing the row

  /** The row Create inserts: audit columns are stamped, everything else comes from the record. */
  function NewRow(columns: map<string, Kind>, r: Row, now: Value, user: Value): Row {
    map c | c in columns && c in r ::
      match columns[c]
      case Plain => r[c]
      case PrimaryKey => r[c]
      case CreatedAt => now
      case UpdatedAt => now
      case _ => user
  }

  /** mergeSeedAuditFields: what the record keeps from the current row. */
  function Merged(columns: map<string, Kind>, r: Row, current: Row): Row {
    map c | c in r :: if c in columns && c in current && IsAudit(columns[c]) && !columns[c].UpdatedAt? then current[c]
        else r[c]
  }

  /** A row under the UPDATE's SET list; keys are never set, and a zero creator or deleter is left out of the list. */
  function Assign(columns: map<string, Kind>, row: Row, r: Row, now: Value, user: Value): Row {
    map c | c in row ::
      if c !in columns || c !in r then row[c]
      else
        match columns[c]
        case Plain => r[c]
        case PrimaryKey => row[c]
        case CreatedAt => r[c]
        case UpdatedAt => now
        case UpdatedBy => user
        case _ => if r[c] == 0 then row[c] else r[c]
  }

  predicate AnythingToSet(columns: map<string, Kind>, r: Row) {
    exists c :: c in columns && c in r && !columns[c].PrimaryKey?
                && (columns[c].CreatedBy? || columns[c].DeletedBy? ==> r[c] != 0)
  }

  /** seedValuesEqual, which blanks the ignored columns on both sides. */
  predicate Same(m: Model, current: Row, r: Row) {
    current - m.ignored == r - m.ignored
  }

  predicate NeedsUser(columns: map<string, Kind>, insert: bool) {
    exists c :: c in columns && if insert then IsUser(columns[c]) else columns[c].UpdatedBy?
  }

  function UserOf(env: Env): Value {
    match env.user case None => 0 case Some(u) => u
  }

  function TryInsert(m: Model, env: Env, rows: seq<Row>, r: Row, now: Value): Result<seq<Row>, Error> {
    if NeedsUser(m.columns, true) && env.user.None? then Failure(MissingUser)
    else
      var rows' := rows + [NewRow(m.columns, r, now, UserOf(env))];
      if env.accepts(rows') then Success(rows') else Failure(Refused)
  }

  function AssignWhere(columns: map<string, Kind>, rows: seq<Row>, filters: seq<Filter>, r: Row, now: Value,
                       user: Value): (rows': seq<Row>)
    ensures |rows'| == |rows|
  {
    seq(|rows|, i requires 0 <= i < |rows| => if Satisfies(rows[i], filters) then Assign(columns, rows[i], r, now, user)
        else rows[i])
  }

  function TryUpdate(m: Model, env: Env, rows: seq<Row>, filters: seq<Filter>, r: Row,
                     now: Value): Result<seq<Row>, Error> {
    if NeedsUser(m.columns, false) && env.user.None? then Failure(MissingUser)
    else if !AnythingToSet(m.columns, r) then Failure(NoUpdatableColumns)
    else
      var rows' := AssignWhere(m.columns, rows, filters, r, now, UserOf(env));
      if env.accepts(rows') then Success(rows') else Failure(Refused)
  }

  /** syncOne as a function of the table. */
  function Attempt(m: Model, env: Env, rows: seq<Row>, r: Row, now: Value): Result<(Action, seq<Row>), Error> {
    match KeyError(m.keys, r)
    case Some(e) => Failure(e)
    case None =>
      KeysPresent(m.keys, r);
      var filters := Pairs(m.keys, r);
      var found := Select(rows, filters);
      if |found| == 0 then
        match TryInsert(m, env, rows, r, now) case Failure(e) => Failure(e) case Success(rows') => Success((Inserted,
            rows'))
      else if |found| > 1 then Failure(Conflict)
      else if Same(m, found[0], r) then Success((Skipped, rows))
      else
        match TryUpdate(m, env, rows, filters, Merged(m.columns, r, found[0]), now)
        case Failure(e) => Failure(e)
        case Success(rows') => Success((Updated, rows'))
  }

  function Count(report: Report, action: Action): Report {
    match action
    case Inserted => report.(inserted := report.inserted + 1)
    case Updated => report.(updated := report.updated + 1)
    case Skipped => report.(skipped := report.skipped + 1)
  }

  function Total(report: Report): nat {
    report.inserted + report.updated + report.skipped
  }

  datatype Outcome = Outcome(rows: seq<Row>, report: Report, error: Option<Error>)

  /** Record after record until one fails; the clock is read once per record. */
  function Process(m: Model, env: Env, clock: nat -> Value, rows: seq<Row>, records: seq<Row>, report: Report): Outcome
    decreases |records|
  {
    if records == [] then Outcome(rows, report, None)
    else
      match Attempt(m, env, rows, records[0], clock(Total(report)))
      case Failure(e) => Outcome(rows, report, Some(e))
      case Success((action, rows')) => Process(m, env, clock, rows', records[1..], Count(report, action))
  }

  const ZERO := Report(0, 0, 0)

  function SyncAll(m: Model, env: Env, clock: nat -> Value, rows: seq<Row>, records: seq<Row>): Outcome {
    if m.keys == [] then Outcome(rows, ZERO, Some(NoKeys)) else Process(m, env, clock, rows, records, ZERO)
  }

  /** The table behind a session, and the statements Sync issues on it. */
  class Session {
    var rows: seq<Row>
    const env: Env

    constructor (env: Env, rows: seq<Row>)
      ensures this.env == env && this.rows == rows
    {
      this.env, this.rows := env, rows;
    }

    /** Find with a limit. */
    method Find(filters: seq<Filter>, limit: nat) returns (found: seq<Row>)
      ensures found == if |Select(rows, filters)| <= limit then Select(rows, filters)
        else Select(rows, filters)[..limit]
    {
      found := [];
      var i := 0;
      while i < |rows| && |found| < limit
        invariant i <= |rows| && |found| <= limit
        invariant found + Select(rows[i..], filters) == Select(rows, filters)
      {
        assert rows[i..][0] == rows[i] && rows[i..][1..] == rows[i + 1..];
        if Satisfies(rows[i], filters) { found := found + [rows[i]]; }
        i := i + 1;
      }
      assert i == |rows| ==> Select(rows[i..], filters) == [];
    }

    method Create(m: Model, record: Row, now: Value) returns (err: Option<Error>)
      modifies this`rows
      ensures match TryInsert(m, env, old(rows), record, now)
              case Success(rows') => rows == rows' && err == None
              case Failure(e) => rows == old(rows) && err == Some(e)
    {
      if NeedsUser(m.columns, true) && env.user.None? { return Some(MissingUser); }
      var rows' := rows + [NewRow(m.columns, record, now, UserOf(env))];
      if !env.accepts(rows') { return Some(Refused); }
      rows := rows';
      err := None;
    }

    method UpdateWhere(m: Model, record: Row, filters: seq<Filter>, now: Value) returns (err: Option<Error>)
      modifies this`rows
      ensures match TryUpdate(m, env, old(rows), filters, record, now)
              case Success(rows') => rows == rows' && err == None
              case Failure(e) => rows == old(rows) && err == Some(e)
    {
      if NeedsUser(m.columns, false) && env.user.None? { return Some(MissingUser); }
      if !AnythingToSet(m.columns, record) { return Some(NoUpdatableColumns); }
      var rows' := AssignWhere(m.columns, rows, filters, record, now, UserOf(env));
      if !env.accepts(rows') { return Some(Refused); }
      rows := rows';
      err := None;
    }

    method SyncOne(m: Model, record: Row, now: Value) returns (r: Result<Action, Error>)
      modifies this`rows
      ensures match Attempt(m, env, old(rows), record, now)
              case Success((action, rows')) => rows == rows' && r == Success(action)
              case Failure(e) => rows == old(rows) && r == Failure(e)
    {
      var opts := BuildSeedFilters(record, m.keys);
      if opts.Failure? { return Failure(opts.error); }
      var existing := Find(opts.value, 2);
      if |existing| == 0 {
        var err := Create(m, record, now);
        if err.Some? { return Failure(err.value); }
        return Success(Inserted);
      }
      if |existing| > 1 { return Failure(Conflict); }
      var current := existing[0];
      if Same(m, current, record) { return Success(Skipped); }
      var err := UpdateWhere(m, Merged(m.columns, record, current), opts.value, now);
      if err.Some? { return Failure(err.value); }
      return Success(Updated);
    }

    /** Sync; the report holds the counters of its trace span. */
    method Sync(m: Model, records: seq<Row>, clock: nat -> Value) returns (report: Report, err: Option<Error>)
      modifies this`rows
      ensures SyncAll(m, env, clock, old(rows), records) == Outcome(rows, report, err)
    {
      report := ZERO;
      if |m.keys| == 0 { return report, Some(NoKeys); }
      if |records| == 0 { return report, None; }
      for i := 0 to |records|
        invariant Process(m, env, clock, old(rows), records, ZERO) == Process(m, env, clock, rows, records[i..], report)
      {
        assert records[i..][0] == records[i] && records[i..][1..] == records[i + 1..];
        var action := SyncOne(m, records[i], clock(Total(report)));
        if action.Failure? { return report, Some(action.error); }
        report := Count(report, action.value);
      }
      err := None;
    }
  }

  // ------------------------------------------------- what a table is worth: its cores

  /** Keys are not audit columns, the comparison ignores nothing else, and rows and records have the model's columns. */
  predicate Suited(m: Model) {
    && (forall i :: 0 <= i < |m.keys| ==> m.keys[i] in m.columns && !IsAudit(m.columns[m.keys[i]]))
    && (forall c :: c in m.ignored ==> c in m.columns && IsAudit(m.columns[c]))
  }

  predicate Typed(m: Model, rows: seq<Row>) {
    forall i :: 0 <= i < |rows| ==> rows[i].Keys == m.columns.Keys
  }

  /** A row without its audit columns. */
  function Core(m: Model, row: Row): Row {
    map c | c in row && c in m.columns && !IsAudit(m.columns[c]) :: row[c]
  }

  function Cores(m: Model, rows: seq<Row>): (cores: seq<Row>)
    ensures |cores| == |rows|
  {
    seq(|rows|, i requires 0 <= i < |rows| => Core(m, rows[i]))
  }

  predicate SameKey(m: Model, row: Row, r: Row) {
    forall i :: 0 <= i < |m.keys| ==> m.keys[i] in row && m.keys[i] in r && row[m.keys[i]] == r[m.keys[i]]
  }

  /** The identity stays, everything else becomes the record's. */
  function Overwrite(m: Model, core: Row, r: Row): Row {
    map c | c in core :: if c in m.columns && m.columns[c].Plain? && c in r then r[c] else core[c]
  }

  predicate Present(m: Model, cores: seq<Row>, r: Row) {
    exists i :: 0 <= i < |cores| && SameKey(m, cores[i], r)
  }

  predicate AtMostOnce(m: Model, cores: seq<Row>, r: Row) {
    forall i, j :: 0 <= i < j < |cores| ==> !(SameKey(m, cores[i], r) && SameKey(m, cores[j], r))
  }

  /** The reference: put the record's values where its key is, or add the record. */
  function Put(m: Model, cores: seq<Row>, r: Row): (put: seq<Row>)
    ensures |put| == |cores| + if Present(m, cores, r) then 0 else 1
  {
    if Present(m, cores, r) then
      seq(|cores|, i requires 0 <= i < |cores| => if SameKey(m, cores[i], r) then Overwrite(m, cores[i], r)
          else cores[i])
    else cores + [Core(m, r)]
  }

  function PutAll(m: Model, cores: seq<Row>, records: seq<Row>): seq<Row>
    decreases |records|
  {
    if records == [] then cores else PutAll(m, Put(m, cores, records[0]), records[1..])
  }

  // ------------------------------------------------ one record: Sync does what Put does

  lemma {:induction false} SelectCounts(rows: seq<Row>, filters: seq<Filter>)
    ensures Select(rows, filters) == [] ==> forall i :: 0 <= i < |rows| ==> !Satisfies(rows[i], filters)
    ensures |Select(rows, filters)| == 1 ==>
              exists i :: 0 <= i < |rows| && Select(rows, filters)[0] == rows[i] && Satisfies(rows[i], filters)
                          && forall j :: 0 <= j < |rows| && j != i ==> !Satisfies(rows[j], filters)
  {
    if rows != [] {
      SelectCounts(rows[1..], filters);
      var rest := Select(rows[1..], filters);
      if Satisfies(rows[0], filters) {
        if rest == [] {
          assert forall j :: 0 < j < |rows| ==> rows[j] == rows[1..][j - 1];
          assert Select(rows, filters) == [rows[0]];
        }
      } else if |rest| == 1 {
        var i :| 0 <= i < |rows[1..]| && rest[0] == rows[1..][i] && Satisfies(rows[1..][i], filters)
                 && forall j :: 0 <= j < |rows[1..]| && j != i ==> !Satisfies(rows[1..][j], filters);
        assert rows[i + 1] == rows[1..][i];
        assert forall j :: 0 < j < |rows| ==> rows[j] == rows[1..][j - 1];
      } else if rest == [] {
        assert forall j :: 0 < j < |rows| ==> rows[j] == rows[1..][j - 1];
      }
    }
  }

  lemma KeyFilters(m: Model, row: Row, r: Row)
    requires Suited(m) && row.Keys == m.columns.Keys && KeyError(m.keys, r).None?
    ensures forall i :: 0 <= i < |m.keys| ==> m.keys[i] in r
    ensures Satisfies(row, Pairs(m.keys, r)) <==> SameKey(m, Core(m, row), r)
  {
    KeysPresent(m.keys, r);
    var filters := Pairs(m.keys, r);
    if Satisfies(row, filters) {
      forall i | 0 <= i < |m.keys| ensures m.keys[i] in Core(m, row) && Core(m, row)[m.keys[i]] == r[m.keys[i]] {
        assert filters[i] == (m.keys[i], r[m.keys[i]]);
      }
    }
    if SameKey(m, Core(m, row), r) {
      forall i | 0 <= i < |filters| ensures filters[i].0 in row && row[filters[i].0] == filters[i].1 {
        assert m.keys[i] in Core(m, row);
      }
    }
  }

  /** An updated row: only its core matters, and that is the overwritten one. */
  lemma AssignedCore(m: Model, row: Row, r: Row, current: Row, now: Value, user: Value)
    requires row.Keys == m.columns.Keys == r.Keys
    ensures Core(m, Assign(m.columns, row, Merged(m.columns, r, current), now, user)) == Overwrite(m, Core(m, row), r)
    ensures Assign(m.columns, row, Merged(m.columns, r, current), now, user).Keys == m.columns.Keys
  {
  }

  lemma SkippedCore(m: Model, row: Row, r: Row)
    requires Suited(m) && row.Keys == m.columns.Keys == r.Keys && Same(m, row, r)
    ensures Overwrite(m, Core(m, row), r) == Core(m, row)
  {
    forall c | c in Core(m, row) ensures row[c] == r[c] {
      assert c in row - m.ignored;
    }
  }

  lemma NewCore(m: Model, r: Row, now: Value, user: Value)
    requires r.Keys == m.columns.Keys
    ensures Core(m, NewRow(m.columns, r, now, user)) == Core(m, r) &&
            NewRow(m.columns, r, now, user).Keys == m.columns.Keys
  {
  }

  /** Filters and keys pick the same rows. */
  lemma FoundIsPresent(m: Model, rows: seq<Row>, r: Row)
    requires Suited(m) && Typed(m, rows) && KeyError(m.keys, r).None?
    ensures forall i :: 0 <= i < |m.keys| ==> m.keys[i] in r
    ensures forall i :: 0 <= i < |rows| ==> (Satisfies(rows[i], Pairs(m.keys, r)) <==> SameKey(m, Cores(m, rows)[i], r))
    ensures Select(rows, Pairs(m.keys, r)) == [] ==> !Present(m, Cores(m, rows), r)
    ensures |Select(rows, Pairs(m.keys, r))| == 1 ==> Present(m, Cores(m, rows), r) && AtMostOnce(m, Cores(m, rows), r)
  {
    KeysPresent(m.keys, r);
    forall i | 0 <= i < |rows| ensures Satisfies(rows[i], Pairs(m.keys, r)) <==> SameKey(m, Cores(m, rows)[i], r) {
      KeyFilters(m, rows[i], r);
    }
    SelectCounts(rows, Pairs(m.keys, r));
  }

  lemma InsertIsPut(m: Model, rows: seq<Row>, r: Row, now: Value, user: Value)
    requires Typed(m, rows) && r.Keys == m.columns.Keys && !Present(m, Cores(m, rows), r)
    ensures Typed(m, rows + [NewRow(m.columns, r, now, user)])
    ensures Cores(m, rows + [NewRow(m.columns, r, now, user)]) == Put(m, Cores(m, rows), r)
  {
    NewCore(m, r, now, user);
  }

  lemma UpdateIsPut(m: Model, rows: seq<Row>, r: Row, current: Row, now: Value, user: Value)
    requires Suited(m) && Typed(m, rows) && r.Keys == m.columns.Keys && KeyError(m.keys, r).None? &&
             Present(m, Cores(m, rows), r)
    ensures forall i :: 0 <= i < |m.keys| ==> m.keys[i] in r
    ensures var rows' := AssignWhere(m.columns, rows, Pairs(m.keys, r), Merged(m.columns, r, current), now, user);
            Typed(m, rows') && Cores(m, rows') == Put(m, Cores(m, rows), r)
  {
    FoundIsPresent(m, rows, r);
    var rows' := AssignWhere(m.columns, rows, Pairs(m.keys, r), Merged(m.columns, r, current), now, user);
    forall i | 0 <= i < |rows|
      ensures rows'[i].Keys == m.columns.Keys && Core(m, rows'[i]) == Put(m, Cores(m, rows), r)[i]
    {
      AssignedCore(m, rows[i], r, current, now, user);
    }
  }

  /**
   * An inserted row is appended to the others. It is stamped with the time of the insert as its creation and update
   * time and with the session's user as its creator, updater and deleter; everything else is the record's.
   */
  lemma InsertStamps(m: Model, env: Env, rows: seq<Row>, r: Row, now: Value, rows': seq<Row>)
    requires r.Keys == m.columns.Keys && Attempt(m, env, rows, r, now) == Success((Inserted, rows'))
    ensures |rows'| == |rows| + 1 && rows'[..|rows|] == rows && rows'[|rows|].Keys == m.columns.Keys
    ensures forall c :: c in m.columns ==>
              match m.columns[c]
              case Plain => rows'[|rows|][c] == r[c]
              case PrimaryKey => rows'[|rows|][c] == r[c]
              case CreatedAt => rows'[|rows|][c] == now
              case UpdatedAt => rows'[|rows|][c] == now
              case CreatedBy => env.user == Some(rows'[|rows|][c])
              case UpdatedBy => env.user == Some(rows'[|rows|][c])
              case DeletedBy => env.user == Some(rows'[|rows|][c])
  {
    KeysPresent(m.keys, r);
    assert TryInsert(m, env, rows, r, now) == Success(rows');
    forall c | c in m.columns && IsUser(m.columns[c]) ensures env.user == Some(rows'[|rows|][c]) {
      assert NeedsUser(m.columns, true);
    }
  }

  /**
   * The row an update finds keeps its identity, its creation time, creator and deleter; it is stamped with the time and
   * the user of the update. No row with another key changes.
   */
  lemma UpdateKeepsCreation(m: Model, env: Env, rows: seq<Row>, r: Row, i: nat, now: Value, rows': seq<Row>)
    requires Suited(m) && Typed(m, rows) && r.Keys == m.columns.Keys && KeyError(m.keys, r).None? && i < |rows|
    requires Attempt(m, env, rows, r, now) == Success((Updated, rows'))
    ensures |rows'| == |rows| && (!SameKey(m, rows[i], r) ==> rows'[i] == rows[i])
    ensures SameKey(m, rows[i], r) ==> forall c :: c in m.columns ==>
              c in rows'[i] &&
                match m.columns[c]
                case Plain => rows'[i][c] == r[c]
                case UpdatedAt => rows'[i][c] == now
                case UpdatedBy => env.user == Some(rows'[i][c])
                case _ => rows'[i][c] == rows[i][c]
  {
    KeysPresent(m.keys, r);
    assert (exists c :: c in m.columns && m.columns[c].UpdatedBy?) ==> NeedsUser(m.columns, false);
    SelectCounts(rows, Pairs(m.keys, r));
    KeyFilters(m, rows[i], r);
  }

  lemma SkipIsPut(m: Model, rows: seq<Row>, r: Row)
    requires Suited(m) && Typed(m, rows) && r.Keys == m.columns.Keys && KeyError(m.keys, r).None?
    requires forall i :: 0 <= i < |m.keys| ==> m.keys[i] in r
    requires |Select(rows, Pairs(m.keys, r))| == 1 && Same(m, Select(rows, Pairs(m.keys, r))[0], r)
    ensures Cores(m, rows) == Put(m, Cores(m, rows), r)
  {
    FoundIsPresent(m, rows, r);
    SelectCounts(rows, Pairs(m.keys, r));
    forall i | 0 <= i < |rows| ensures Core(m, rows[i]) == Put(m, Cores(m, rows), r)[i] {
      if SameKey(m, Cores(m, rows)[i], r) { SkippedCore(m, rows[i], r); }
    }
  }

  /** A reconciled record: found at most once, put, and inserted only if it was absent. */
  lemma AttemptIsPut(m: Model, env: Env, rows: seq<Row>, r: Row, now: Value)
    requires Suited(m) && Typed(m, rows) && r.Keys == m.columns.Keys && Attempt(m, env, rows, r, now).Success?
    ensures var (action, rows') := Attempt(m, env, rows, r, now).value;
            && Typed(m, rows') && Cores(m, rows') == Put(m, Cores(m, rows), r)
            && AtMostOnce(m, Cores(m, rows), r)
            && (action.Inserted? <==> !Present(m, Cores(m, rows), r))
  {
    var (action, rows') := Attempt(m, env, rows, r, now).value;
    FoundIsPresent(m, rows, r);
    match action {
      case Inserted => InsertIsPut(m, rows, r, now, UserOf(env));
      case Skipped => SkipIsPut(m, rows, r);
      case Updated => UpdateIsPut(m, rows, r, Select(rows, Pairs(m.keys, r))[0], now, UserOf(env));
    }
  }

  // ------------------------------------------------------------ all records: the theorem

  /** No record is ambiguous when its turn comes. */
  predicate Unambiguous(m: Model, cores: seq<Row>, records: seq<Row>)
    decreases |records|
  {
    records == [] || (AtMostOnce(m, cores, records[0]) && Unambiguous(m, Put(m, cores, records[0]), records[1..]))
  }

  lemma {:induction false} ProcessIsPutAll(m: Model, env: Env, clock: nat -> Value, rows: seq<Row>, records: seq<Row>,
                                           report: Report)
    requires Suited(m) && Typed(m, rows) && Typed(m, records) &&
             Process(m, env, clock, rows, records, report).error.None?
    ensures var out := Process(m, env, clock, rows, records, report);
            && Typed(m, out.rows) && Cores(m, out.rows) == PutAll(m, Cores(m, rows), records)
            && Unambiguous(m, Cores(m, rows), records)
            && Total(out.report) == Total(report) + |records|
            && |out.rows| == |rows| + out.report.inserted - report.inserted
    decreases |records|
  {
    if records != [] {
      var r := records[0];
      var (action, rows') := Attempt(m, env, rows, r, clock(Total(report))).value;
      AttemptIsPut(m, env, rows, r, clock(Total(report)));
      ProcessIsPutAll(m, env, clock, rows', records[1..], Count(report, action));
      assert |rows'| == |Cores(m, rows')|;
    }
  }

  /** The last of the records with the row's key. */
  function LastFor(m: Model, row: Row, records: seq<Row>): Option<Row> {
    if records == [] then None
    else
      match LastFor(m, row, records[1..])
      case Some(q) => Some(q)
      case None => if SameKey(m, row, records[0]) then Some(records[0]) else None
  }

  function Settle(m: Model, row: Row, records: seq<Row>): Row {
    match LastFor(m, row, records) case None => row case Some(q) => Overwrite(m, row, q)
  }

  lemma {:induction false} LastForIsRecord(m: Model, row: Row, records: seq<Row>)
    ensures LastFor(m, row, records).Some? ==>
              SameKey(m, row, LastFor(m, row, records).value) && LastFor(m, row, records).value in records
    ensures LastFor(m, row, records).None? ==> forall i :: 0 <= i < |records| ==> !SameKey(m, row, records[i])
  {
    if records != [] {
      LastForIsRecord(m, row, records[1..]);
      assert forall i :: 0 < i < |records| ==> records[i] == records[1..][i - 1];
    }
  }

  lemma OverwriteKeepsKey(m: Model, row: Row, r: Row, q: Row)
    requires SameKey(m, row, r)
    ensures SameKey(m, Overwrite(m, row, r), q) <==> SameKey(m, row, q)
    ensures SameKey(m, row, q) <==> SameKey(m, r, q)
  {
    forall i | 0 <= i < |m.keys| ensures Overwrite(m, row, r)[m.keys[i]] == row[m.keys[i]] {
    }
  }

  lemma {:induction false} LastForKey(m: Model, a: Row, b: Row, records: seq<Row>)
    requires forall q: Row :: SameKey(m, a, q) <==> SameKey(m, b, q)
    ensures LastFor(m, a, records) == LastFor(m, b, records)
  {
    if records != [] { LastForKey(m, a, b, records[1..]); }
  }

  lemma OverwriteTwice(m: Model, row: Row, r: Row, q: Row)
    requires r.Keys == m.columns.Keys == q.Keys
    ensures Overwrite(m, Overwrite(m, row, r), q) == Overwrite(m, row, q)
  {
  }

  lemma SameKeyAsSettled(m: Model, row: Row, records: seq<Row>)
    ensures forall q: Row :: SameKey(m, Settle(m, row, records), q) <==> SameKey(m, row, q)
  {
    LastForIsRecord(m, row, records);
    if LastFor(m, row, records).Some? {
      forall q: Row ensures SameKey(m, Settle(m, row, records), q) <==> SameKey(m, row, q) {
        OverwriteKeepsKey(m, row, LastFor(m, row, records).value, q);
      }
    }
  }

  lemma SettleFurther(m: Model, row: Row, r: Row, records: seq<Row>)
    requires Typed(m, records) && r.Keys == m.columns.Keys && SameKey(m, row, r)
    ensures Settle(m, Overwrite(m, row, r), records) == if LastFor(m, row, records).Some? then Settle(m, row, records)
            else Overwrite(m, row, r)
  {
    forall q: Row
      ensures SameKey(m, Overwrite(m, row, r), q) <==> SameKey(m, row, q)
    {
      OverwriteKeepsKey(m, row, r, q);
    }
    LastForKey(m, Overwrite(m, row, r), row, records);
    LastForIsRecord(m, row, records);
    if LastFor(m, row, records).Some? { OverwriteTwice(m, row, r, LastFor(m, row, records).value); }
  }

  /** What becomes of a row that was there before. */
  lemma {:induction false} PutAllAt(m: Model, cores: seq<Row>, records: seq<Row>, i: nat)
    requires Typed(m, records) && i < |cores|
    ensures |PutAll(m, cores, records)| >= |cores| && PutAll(m, cores, records)[i] == Settle(m, cores[i], records)
    decreases |records|
  {
    if records != [] {
      PutAllAt(m, Put(m, cores, records[0]), records[1..], i);
      if SameKey(m, cores[i], records[0]) { SettleFurther(m, cores[i], records[0], records[1..]); }
    }
  }

  lemma CoreHasKey(m: Model, r: Row)
    requires Suited(m) && r.Keys == m.columns.Keys
    ensures SameKey(m, Core(m, r), r) && Overwrite(m, Core(m, r), r) == Core(m, r)
  {
  }

  /** A row that was not there before carries the key of some record. */
  lemma {:induction false} AddedIsDesired(m: Model, cores: seq<Row>, records: seq<Row>, i: nat)
    requires Suited(m) && Typed(m, records) && |cores| <= i < |PutAll(m, cores, records)|
    ensures LastFor(m, PutAll(m, cores, records)[i], records).Some?
    decreases |records|
  {
    if records != [] {
      var r, rest := records[0], records[1..];
      var next := Put(m, cores, r);
      if i >= |next| {
        AddedIsDesired(m, next, rest, i);
      } else {
        PutAllAt(m, next, rest, i);
        CoreHasKey(m, r);
        SameKeyAsSettled(m, Core(m, r), rest);
      }
    }
  }

  /** Every row holds what the last record with its key says. */
  lemma {:induction false} AllSettled(m: Model, cores: seq<Row>, records: seq<Row>, i: nat)
    requires Suited(m) && Typed(m, records) && i < |PutAll(m, cores, records)|
    ensures Settle(m, PutAll(m, cores, records)[i], records) == PutAll(m, cores, records)[i]
    decreases |records|
  {
    var row := PutAll(m, cores, records)[i];
    if i < |cores| {
      PutAllAt(m, cores, records, i);
      SameKeyAsSettled(m, cores[i], records);
      LastForKey(m, row, cores[i], records);
      LastForIsRecord(m, cores[i], records);
      if LastFor(m, cores[i], records).Some? {
        var q := LastFor(m, cores[i], records).value;
        OverwriteTwice(m, cores[i], q, q);
      }
    } else if records != [] {
      var r, rest := records[0], records[1..];
      var next := Put(m, cores, r);
      AllSettled(m, next, rest, i);
      if LastFor(m, row, rest).None? {
        if i >= |next| { AddedIsDesired(m, next, rest, i); }
        PutAllAt(m, next, rest, i);
        SameKeyAsSettled(m, Core(m, r), rest);
        LastForKey(m, row, Core(m, r), rest);
        CoreHasKey(m, r);
      }
    }
  }

  lemma PutKeepsPresence(m: Model, cores: seq<Row>, r: Row, q: Row)
    requires Suited(m) && r.Keys == m.columns.Keys
    ensures Present(m, Put(m, cores, r), r)
    ensures Present(m, cores, q) ==> Present(m, Put(m, cores, r), q)
    ensures AtMostOnce(m, cores, q) ==> AtMostOnce(m, Put(m, cores, r), q)
  {
    var next := Put(m, cores, r);
    forall i | 0 <= i < |cores| ensures SameKey(m, next[i], q) <==> SameKey(m, cores[i], q) {
      if SameKey(m, cores[i], r) { OverwriteKeepsKey(m, cores[i], r, q); }
    }
    CoreHasKey(m, r);
    if Present(m, cores, r) {
      var i :| 0 <= i < |cores| && SameKey(m, cores[i], r);
      OverwriteKeepsKey(m, cores[i], r, r);
      assert SameKey(m, next[i], r);
    } else {
      assert SameKey(m, next[|cores|], r);
      if SameKey(m, Core(m, r), q) {
        forall i | 0 <= i < |cores| ensures !SameKey(m, cores[i], q) {
          if SameKey(m, cores[i], q) { SameKeyVia(m, cores[i], r, q); }
        }
      }
    }
    if Present(m, cores, q) {
      var i :| 0 <= i < |cores| && SameKey(m, cores[i], q);
      assert SameKey(m, next[i], q);
    }
  }

  lemma SameKeyVia(m: Model, row: Row, r: Row, q: Row)
    requires SameKey(m, row, q) && SameKey(m, Core(m, r), q)
    ensures SameKey(m, row, r)
  {
  }

  lemma {:induction false} RecordsPresent(m: Model, cores: seq<Row>, records: seq<Row>, q: Row)
    requires Suited(m) && Typed(m, records) && Unambiguous(m, cores, records)
    ensures Present(m, cores, q) || q in records ==> Present(m, PutAll(m, cores, records), q)
    ensures AtMostOnce(m, cores, q) || q in records ==> AtMostOnce(m, PutAll(m, cores, records), q)
    decreases |records|
  {
    if records != [] {
      PutKeepsPresence(m, cores, records[0], q);
      RecordsPresent(m, Put(m, cores, records[0]), records[1..], q);
      assert q in records ==> q == records[0] || q in records[1..];
    }
  }

  /** Rows no record asks for are not written at all, audit columns included. */
  lemma {:induction false} OthersUntouched(m: Model, env: Env, clock: nat -> Value, rows: seq<Row>, records: seq<Row>,
                                           report: Report, i: nat)
    requires Suited(m) && Typed(m, rows) && Typed(m, records) && i < |rows|
    requires LastFor(m, Core(m, rows[i]), records).None?
    ensures i < |Process(m, env, clock, rows, records, report).rows| &&
            Process(m, env, clock, rows, records, report).rows[i] == rows[i]
    decreases |records|
  {
    if records != [] {
      var r, now := records[0], clock(Total(report));
      LastForIsRecord(m, Core(m, rows[i]), records);
      var attempt := Attempt(m, env, rows, r, now);
      if attempt.Success? {
        AttemptIsPut(m, env, rows, r, now);
        FoundIsPresent(m, rows, r);
        assert !SameKey(m, Cores(m, rows)[i], r);
        assert attempt.value.1[i] == rows[i];
        OthersUntouched(m, env, clock, attempt.value.1, records[1..], Count(report, attempt.value.0), i);
      }
    }
  }

  /** Exactly one row per desired key. */
  predicate ExactlyOnce(m: Model, rows: seq<Row>, r: Row) {
    Present(m, Cores(m, rows), r) && AtMostOnce(m, Cores(m, rows), r)
  }

  /** The row at i holds the values of the last record with its key, if there is one. */
  predicate Holds(m: Model, row: Row, records: seq<Row>) {
    match LastFor(m, Core(m, row), records)
    case None => true
    case Some(q) => forall c :: c in m.columns && m.columns[c].Plain? && c in row && c in q ==> row[c] == q[c]
  }

  /** The table is what putting all records makes of `cores`. */
  predicate Reconciled(m: Model, cores: seq<Row>, records: seq<Row>, rows: seq<Row>) {
    Typed(m, rows) && Cores(m, rows) == PutAll(m, cores, records) && Unambiguous(m, cores, records)
  }

  lemma SyncStarts(m: Model, env: Env, clock: nat -> Value, rows: seq<Row>, records: seq<Row>, out: Outcome)
    returns (zero: Report)
    requires out == SyncAll(m, env, clock, rows, records) && (out.error.None? || m.keys != [])
    ensures out == Process(m, env, clock, rows, records, zero) && Total(zero) == 0 && zero.inserted == 0
  {
    zero := ZERO;
  }

  /** Reference and loop agree on a successful Sync, and the counters account for every record and every new row. */
  lemma SyncIsPutAll(m: Model, env: Env, clock: nat -> Value, rows: seq<Row>, records: seq<Row>, out: Outcome)
    requires Suited(m) && Typed(m, rows) && Typed(m, records)
    requires out == SyncAll(m, env, clock, rows, records) && out.error.None?
    ensures Reconciled(m, Cores(m, rows), records, out.rows)
    ensures Total(out.report) == |records| && |out.rows| == |rows| + out.report.inserted
  {
    var zero := SyncStarts(m, env, clock, rows, records, out);
    ProcessIsPutAll(m, env, clock, rows, records, zero);
  }

  lemma ReconciledOnce(m: Model, cores: seq<Row>, records: seq<Row>, rows: seq<Row>, r: Row)
    requires Suited(m) && Typed(m, records) && Reconciled(m, cores, records, rows) && r in records
    ensures ExactlyOnce(m, rows, r)
  {
    RecordsPresent(m, cores, records, r);
  }

  lemma ReconciledHolds(m: Model, cores: seq<Row>, records: seq<Row>, rows: seq<Row>, i: nat)
    requires Suited(m) && Typed(m, records) && Reconciled(m, cores, records, rows) && i < |rows|
    ensures Holds(m, rows[i], records)
  {
    AllSettled(m, cores, records, i);
    SettledHolds(m, rows[i], records);
  }

  lemma ReconciledIdentity(m: Model, before: seq<Row>, records: seq<Row>, rows: seq<Row>, i: nat, c: string)
    requires Typed(m, before) && Typed(m, records) && Reconciled(m, Cores(m, before), records, rows) && i < |before|
    requires c in m.columns && m.columns[c].PrimaryKey?
    ensures i < |rows| && rows[i][c] == before[i][c]
  {
    PutAllAt(m, Cores(m, before), records, i);
    SettleKeepsIdentity(m, before[i], rows[i], records, c);
  }

  /** A successful Sync leaves exactly one row per desired key, holding the values of the last record with that key. */
  lemma SyncReconciles(m: Model, env: Env, clock: nat -> Value, rows: seq<Row>, records: seq<Row>, out: Outcome)
    requires Suited(m) && Typed(m, rows) && Typed(m, records)
    requires out == SyncAll(m, env, clock, rows, records) && out.error.None?
    ensures forall r :: r in records ==> ExactlyOnce(m, out.rows, r)
    ensures forall i :: 0 <= i < |out.rows| ==> Holds(m, out.rows[i], records)
  {
    SyncIsPutAll(m, env, clock, rows, records, out);
    forall r | r in records
      ensures ExactlyOnce(m, out.rows, r)
    {
      ReconciledOnce(m, Cores(m, rows), records, out.rows, r);
    }
    forall i | 0 <= i < |out.rows|
      ensures Holds(m, out.rows[i], records)
    {
      ReconciledHolds(m, Cores(m, rows), records, out.rows, i);
    }
  }

  /** Rows without a desired key are not written, and no row changes its identity. */
  lemma SyncKeepsTheRest(m: Model, env: Env, clock: nat -> Value, rows: seq<Row>, records: seq<Row>, out: Outcome,
                         i: nat)
    requires Suited(m) && Typed(m, rows) && Typed(m, records) && i < |rows|
    requires out == SyncAll(m, env, clock, rows, records) && out.error.None?
    ensures i < |out.rows| && (LastFor(m, Core(m, rows[i]), records).None? ==> out.rows[i] == rows[i])
    ensures forall c :: c in m.columns && m.columns[c].PrimaryKey? ==> c in out.rows[i] && out.rows[i][c] == rows[i][c]
  {
    SyncIsPutAll(m, env, clock, rows, records, out);
    if LastFor(m, Core(m, rows[i]), records).None? { OthersUntouched(m, env, clock, rows, records, ZERO, i); }
    forall c | c in m.columns && m.columns[c].PrimaryKey? ensures out.rows[i][c] == rows[i][c] {
      ReconciledIdentity(m, rows, records, out.rows, i, c);
    }
  }

  lemma SettledHolds(m: Model, row: Row, records: seq<Row>)
    requires Typed(m, records) && row.Keys == m.columns.Keys && Settle(m, Core(m, row), records) == Core(m, row)
    ensures Holds(m, row, records)
  {
    if LastFor(m, Core(m, row), records).Some? {
      var q := LastFor(m, Core(m, row), records).value;
      forall c | c in m.columns && m.columns[c].Plain? && c in row && c in q ensures row[c] == q[c] {
        assert Core(m, row)[c] == Overwrite(m, Core(m, row), q)[c];
      }
    }
  }

  lemma SettleKeepsIdentity(m: Model, before: Row, after: Row, records: seq<Row>, c: string)
    requires before.Keys == m.columns.Keys == after.Keys && c in m.columns && m.columns[c].PrimaryKey?
    requires Core(m, after) == Settle(m, Core(m, before), records)
    ensures after[c] == before[c]
  {
    assert Core(m, after)[c] == after[c] && Core(m, before)[c] == before[c];
  }

  // ----------------------------------------------------------------------- a failed Sync

  lemma PutAllPrefix(m: Model, cores: seq<Row>, records: seq<Row>, k: nat)
    requires k < |records|
    ensures PutAll(m, cores, records[..k + 1]) == PutAll(m, Put(m, cores, records[0]), records[1..][..k])
  {
    assert records[..k + 1][1..] == records[1..][..k] && records[..k + 1][0] == records[0];
  }

  /** A Sync that fails has reconciled exactly the records before the failing one. */
  lemma {:induction false} FailedSyncStoppedAt(m: Model, env: Env, clock: nat -> Value, rows: seq<Row>,
      records: seq<Row>, report: Report) returns (done: nat)
    requires Suited(m) && Typed(m, rows) && Typed(m, records) &&
             Process(m, env, clock, rows, records, report).error.Some?
    ensures var out := Process(m, env, clock, rows, records, report);
            && done == Total(out.report) - Total(report) < |records| &&
                Cores(m, out.rows) == PutAll(m, Cores(m, rows), records[..done])
            && Attempt(m, env, out.rows, records[done], clock(Total(out.report))) == Failure(out.error.value)
    decreases |records|
  {
    var attempt := Attempt(m, env, rows, records[0], clock(Total(report)));
    if attempt.Success? {
      AttemptIsPut(m, env, rows, records[0], clock(Total(report)));
      var (action, rows') := attempt.value;
      var rest := FailedSyncStoppedAt(m, env, clock, rows', records[1..], Count(report, action));
      PutAllPrefix(m, Cores(m, rows), records, rest);
      done := rest + 1;
    } else {
      done := 0;
      assert records[..0] == [];
    }
  }
}
