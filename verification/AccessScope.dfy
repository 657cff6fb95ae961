/** access/engine.go, access/policy.go and their callers in orm/orm.go: which rows a caller reads and writes. */
module AccessScope {
  import opened Wrappers

  /** A column value; None is NULL, Some(0) the zero value of the field's type. */
  type Cell = Option<int>
  type Row = map<string, Cell>

  datatype Scope = Unscoped | Company | Tenant | Organization | Workspace | Warehouse | User
  datatype Operation = Query | Insert | Update | Delete

  datatype Column = Column(
    name: string, scope: Scope, primaryKey: bool, version: bool, softDelete: bool, createdAt: bool, updatedAt: bool,
        deletedAt: bool,
    createdBy: bool, updatedBy: bool, deletedBy: bool)

  datatype Context = Context(
    company: Cell, tenant: Cell, organization: Cell, workspace: Cell, warehouse: Cell, user: Cell, policy: string)

  datatype Error = MissingContext(field: Scope) | NoColumns | NoPrimaryKey | NoWhere | NoSoftDelete | Refused

  // ---------------------------------------------------------------- policy.go

  function Normalize(level: string): string {
    if level == "" then "default" else level
  }

  predicate IsSystem(level: string) {
    Normalize(level) == "system"
  }

  predicate EnforcesSoftDelete(level: string) {
    !IsSystem(level)
  }

  predicate EnforcesAudit(level: string) {
    !IsSystem(level)
  }

  predicate AllowsScope(level: string, scope: Scope) {
    match Normalize(level)
    case "default" => true
    case "ignore_company" => !scope.Company?
    case "ignore_rls" => false
    case "system" => false
    case _ => true
  }

  /** How much a policy lifts; a level nobody defined counts as the default. */
  function Rank(level: string): nat {
    match Normalize(level)
    case "ignore_company" => 1
    case "ignore_rls" => 2
    case "system" => 3
    case _ => 0
  }

  // ---------------------------------------------------------------- engine.go

  function IdOf(ac: Context, scope: Scope): Cell {
    match scope
    case Unscoped => None
    case Company => ac.company
    case Tenant => ac.tenant
    case Organization => ac.organization
    case Workspace => ac.workspace
    case Warehouse => ac.warehouse
    case User => ac.user
  }

  /** The scope restricts this column for this caller. */
  predicate Active(ac: Context, c: Column) {
    AllowsScope(ac.policy, c.scope) && !c.scope.Unscoped?
  }

  predicate NeedsUser(c: Column, op: Operation) {
    match op
    case Insert => c.createdBy || c.updatedBy || c.deletedBy
    case Update => c.updatedBy
    case Delete => c.deletedBy
    case Query => false
  }

  function MissingAt(ac: Context, c: Column, op: Operation): Option<Scope> {
    if Active(ac, c) && IdOf(ac, c.scope).None? then Some(c.scope)
    else if EnforcesAudit(ac.policy) && NeedsUser(c, op) && ac.user.None? then Some(User)
    else None
  }

  function FirstMissing(ac: Context, columns: seq<Column>, op: Operation): Option<Scope> {
    if columns == [] then None
    else if MissingAt(ac, columns[0], op).Some? then MissingAt(ac, columns[0], op)
    else FirstMissing(ac, columns[1..], op)
  }

  function Missing(ac: Context, columns: seq<Column>, op: Operation): Option<Scope> {
    if IsSystem(ac.policy) then None else FirstMissing(ac, columns, op)
  }

  method ValidateContextForOperation(ac: Context, columns: seq<Column>, op: Operation) returns (err: Option<Error>)
    ensures err == match Missing(ac, columns, op) case None => None case Some(f) => Some(MissingContext(f))
  {
    if IsSystem(ac.policy) { return None; }
    for i := 0 to |columns|
      invariant FirstMissing(ac, columns, op) == FirstMissing(ac, columns[i..], op)
    {
      var col := columns[i];
      assert columns[i..][0] == col && columns[i..][1..] == columns[i + 1..];
      if AllowsScope(ac.policy, col.scope) {
        if !col.scope.Unscoped? && IdOf(ac, col.scope).None? { return Some(MissingContext(col.scope)); }
      }
      if !EnforcesAudit(ac.policy) { continue; }
      if NeedsUser(col, op) && ac.user.None? { return Some(MissingContext(User)); }
    }
    err := None;
  }

  /** `column = value`; never true of NULL, on either side. */
  type Predicate = (string, Cell)

  function ScopePredicates(ac: Context, columns: seq<Column>): seq<Predicate> {
    if columns == [] then []
    else (if Active(ac, columns[0]) then [(columns[0].name, IdOf(ac, columns[0].scope))] else []) +
         ScopePredicates(ac, columns[1..])
  }

  function ColumnWrites(ac: Context, c: Column, op: Operation): seq<Predicate> {
    (if Active(ac, c) && op == Insert then [(c.name, IdOf(ac, c.scope))] else [])
    + (if EnforcesAudit(ac.policy) && ac.user.Some? && (op == Insert || op == Update) && NeedsUser(c, op) then
        [(c.name, ac.user)] else [])
  }

  function Writes(ac: Context, columns: seq<Column>, op: Operation): seq<Predicate> {
    if columns == [] then [] else ColumnWrites(ac, columns[0], op) + Writes(ac, columns[1..], op)
  }

  predicate Filters(op: Operation) {
    op == Query || op == Delete
  }

  function ColumnPredicates(ac: Context, c: Column, op: Operation): seq<Predicate> {
    if Active(ac, c) && Filters(op) then [(c.name, IdOf(ac, c.scope))] else []
  }

  /** The body of Apply's loop. */
  method ApplyColumn(ac: Context, col: Column, op: Operation) returns (preds: seq<Predicate>, writes: seq<Predicate>)
    ensures preds == ColumnPredicates(ac, col, op) && writes == ColumnWrites(ac, col, op)
  {
    preds, writes := [], [];
    if AllowsScope(ac.policy, col.scope) && !col.scope.Unscoped? {
      if op == Query || op == Delete { preds := [(col.name, IdOf(ac, col.scope))]; }
      if op == Insert { writes := [(col.name, IdOf(ac, col.scope))]; }
    }
    if !EnforcesAudit(ac.policy) { return; }
    if op == Insert && (col.createdBy || col.updatedBy || col.deletedBy) && ac.user.Some? {
      writes := writes + [(col.name, ac.user)];
    }
    if op == Update && col.updatedBy && ac.user.Some? { writes := writes + [(col.name, ac.user)]; }
  }

  function AllPredicates(ac: Context, columns: seq<Column>, op: Operation): seq<Predicate> {
    if Filters(op) then ScopePredicates(ac, columns) else []
  }

  /** One more column collected. */
  lemma CollectColumn(ac: Context, columns: seq<Column>, op: Operation, i: nat, preds: seq<Predicate>,
                      writes: seq<Predicate>)
    requires i < |columns|
    ensures preds + AllPredicates(ac, columns[i..], op)
            == (preds + ColumnPredicates(ac, columns[i], op)) + AllPredicates(ac, columns[i + 1..], op)
    ensures writes + Writes(ac, columns[i..], op) == (writes + ColumnWrites(ac, columns[i], op)) +
            Writes(ac, columns[i + 1..], op)
  {
    assert columns[i..][0] == columns[i] && columns[i..][1..] == columns[i + 1..];
  }

  /** Apply's loop over the columns. */
  method CollectColumns(ac: Context, columns: seq<Column>, op: Operation)
    returns (preds: seq<Predicate>, writes: seq<Predicate>)
    ensures preds == AllPredicates(ac, columns, op) && writes == Writes(ac, columns, op)
  {
    preds, writes := [], [];
    assert columns[0..] == columns;
    for i := 0 to |columns|
      invariant preds + AllPredicates(ac, columns[i..], op) == AllPredicates(ac, columns, op)
      invariant writes + Writes(ac, columns[i..], op) == Writes(ac, columns, op)
    {
      CollectColumn(ac, columns, op, i, preds, writes);
      var p, w := ApplyColumn(ac, columns[i], op);
      preds, writes := preds + p, writes + w;
    }
    assert columns[|columns|..] == [];
  }

  method Apply(ac: Context, columns: seq<Column>, op: Operation)
    returns (preds: seq<Predicate>, writes: seq<Predicate>, err: Option<Error>)
    ensures match Missing(ac, columns, op)
            case Some(f) => preds == [] && writes == [] && err == Some(MissingContext(f))
            case None => preds == AllPredicates(ac, columns, op) && writes == Writes(ac, columns, op) && err == None
  {
    preds, writes := [], [];
    err := ValidateContextForOperation(ac, columns, op);
    if err.Some? { return; }
    preds, writes := CollectColumns(ac, columns, op);
  }

  // ------------------------------------------------------------- what the filters mean

  predicate Satisfies(row: Row, preds: seq<Predicate>) {
    forall i :: 0 <= i < |preds| ==> preds[i].1.Some? && preds[i].0 in row && row[preds[i].0] == preds[i].1
  }

  /** The row belongs to the caller in every scope the policy leaves on. */
  predicate InScope(ac: Context, columns: seq<Column>, row: Row) {
    forall i :: 0 <= i < |columns| && Active(ac, columns[i]) ==>
      IdOf(ac, columns[i].scope).Some? && columns[i].name in row && row[columns[i].name] == IdOf(ac, columns[i].scope)
  }

  lemma {:induction false} PredicatesMeanScope(ac: Context, columns: seq<Column>, row: Row)
    ensures Satisfies(row, ScopePredicates(ac, columns)) <==> InScope(ac, columns, row)
  {
    if columns != [] {
      PredicatesMeanScope(ac, columns[1..], row);
      var rest, all := ScopePredicates(ac, columns[1..]), ScopePredicates(ac, columns);
      assert forall i :: 0 < i < |columns| ==> columns[i] == columns[1..][i - 1];
      assert InScope(ac, columns, row) <==> InScope(ac, columns[1..], row) && InScope(ac, [columns[0]], row) by {
        assert forall i :: 0 <= i < |columns[1..]| ==> columns[1..][i] == columns[i + 1];
        assert [columns[0]][0] == columns[0];
      }
      if Active(ac, columns[0]) {
        assert all[0] == (columns[0].name, IdOf(ac, columns[0].scope));
        assert forall i :: 0 < i < |all| ==> all[i] == rest[i - 1];
        assert forall i :: 0 <= i < |rest| ==> rest[i] == all[i + 1];
        assert [columns[0]][0] == columns[0];
      } else {
        assert all == rest;
      }
    }
  }

  lemma {:induction false} WriteChecksImplyQueryChecks(ac: Context, columns: seq<Column>, op: Operation)
    requires Missing(ac, columns, op).None?
    ensures Missing(ac, columns, Query).None?
  {
    if !IsSystem(ac.policy) && columns != [] {
      WriteChecksImplyQueryChecks(ac, columns[1..], op);
    }
  }

  // ------------------------------------------------------------ orm.go: collecting values

  function WithWrites(values: Row, writes: seq<Predicate>): Row
    decreases |writes|
  {
    if writes == [] then values else WithWrites(values[writes[0].0 := writes[0].1], writes[1..])
  }

  predicate Stamped(c: Column, op: Operation) {
    (c.createdAt && op == Insert) || c.updatedAt || (c.deletedAt && op == Delete)
  }

  function WithStamps(values: Row, columns: seq<Column>, op: Operation, now: Cell): Row
    decreases |columns|
  {
    if columns == [] then values
    else WithStamps(if Stamped(columns[0], op) then values[columns[0].name := now] else values, columns[1..], op, now)
  }

  /** populateAuditAndScope once the context is known to be complete. */
  function Populated(ac: Context, columns: seq<Column>, op: Operation, now: Cell): Row {
    var written := WithWrites(map[], Writes(ac, columns, op));
    if EnforcesAudit(ac.policy) then WithStamps(written, columns, op, now) else written
  }

  method PopulateAuditAndScope(ac: Context, columns: seq<Column>, op: Operation, now: Cell)
    returns (values: Row, err: Option<Error>)
    ensures match Missing(ac, columns, op)
            case Some(f) => err == Some(MissingContext(f))
            case None => err == None && values == Populated(ac, columns, op, now)
  {
    values := map[];
    var preds, writes;
    preds, writes, err := Apply(ac, columns, op);
    if err.Some? { return; }
    for i := 0 to |writes|
      invariant WithWrites(values, writes[i..]) == WithWrites(map[], writes)
    {
      assert writes[i..][0] == writes[i] && writes[i..][1..] == writes[i + 1..];
      values := values[writes[i].0 := writes[i].1];
    }
    ghost var written := values;
    for i := 0 to |columns|
      invariant !EnforcesAudit(ac.policy) ==> values == written
      invariant EnforcesAudit(ac.policy) ==>
        WithStamps(values, columns[i..], op, now) == WithStamps(written, columns, op, now)
    {
      assert columns[i..][0] == columns[i] && columns[i..][1..] == columns[i + 1..];
      if !EnforcesAudit(ac.policy) { continue; }
      if Stamped(columns[i], op) { values := values[columns[i].name := now]; }
    }
  }

  predicate IsZero(v: Cell) {
    v == None || v == Some(0)
  }

  /** What a model field contributes; `fields` holds the columns the model has a field for. */
  function FieldValue(c: Column, fields: Row, now: Cell, isInsert: bool): Option<Cell> {
    if c.version || c.name !in fields then None
    else if !IsZero(fields[c.name]) then Some(fields[c.name])
    else if (c.createdAt && isInsert) || c.updatedAt || (c.deletedAt && !isInsert) then Some(now)
    else if c.createdBy || c.updatedBy || c.deletedBy || !c.scope.Unscoped? then None
    else Some(fields[c.name])
  }

  function WithField(values: Row, c: Column, fields: Row, now: Cell, isInsert: bool): Row {
    if c.name in values then values
    else match FieldValue(c, fields, now, isInsert) case None => values case Some(v) => values[c.name := v]
  }

  function WithFields(values: Row, columns: seq<Column>, fields: Row, now: Cell, isInsert: bool): Row
    decreases |columns|
  {
    if columns == [] then values else WithFields(WithField(values, columns[0], fields, now, isInsert), columns[1..],
        fields, now, isInsert)
  }

  method ApplyStructFieldValues(ac: Context, columns: seq<Column>, fields: Row, values: Row, now: Cell, isInsert: bool)
    returns (out: Row)
    ensures out == if EnforcesAudit(ac.policy) then WithFields(values, columns, fields, now, isInsert) else values
  {
    out := values;
    if !EnforcesAudit(ac.policy) { return; }
    for i := 0 to |columns|
      invariant WithFields(out, columns[i..], fields, now, isInsert)
        == WithFields(values, columns, fields, now, isInsert)
    {
      var col := columns[i];
      assert columns[i..][0] == col && columns[i..][1..] == columns[i + 1..];
      if col.version { continue; }
      if col.name in out { continue; }
      if col.name !in fields { continue; }
      var v := fields[col.name];
      if IsZero(v) {
        if (col.createdAt && isInsert) || col.updatedAt || (col.deletedAt && !isInsert) {
          out := out[col.name := now];
        } else if col.createdBy || col.updatedBy || col.deletedBy || !col.scope.Unscoped? {
        } else {
          out := out[col.name := v];
        }
        continue;
      }
      out := out[col.name := v];
    }
  }

  /** The columns an INSERT or UPDATE names, with their values. */
  function Named(columns: seq<Column>, values: Row, insert: bool): Row {
    map n | n in values && Writable(columns, n, insert) :: values[n]
  }

  predicate Writable(columns: seq<Column>, n: string, insert: bool) {
    exists i :: 0 <= i < |columns| && columns[i].name == n &&
        (insert || (n !in PrimaryKeys(columns) && !columns[i].version))
  }

  function PrimaryKeys(columns: seq<Column>): seq<string> {
    if columns == [] then [] else (if columns[0].primaryKey then [columns[0].name] else []) + PrimaryKeys(columns[1..])
  }

  function Collected(ac: Context, columns: seq<Column>, fields: Row, op: Operation, now: Cell): Row {
    var populated := Populated(ac, columns, op, now);
    if EnforcesAudit(ac.policy) then WithFields(populated, columns, fields, now, op == Insert) else populated
  }

  // ---------------------------------------------------------------- orm.go: statements

  type Where = Row -> bool

  predicate Holds(row: Row, where_: seq<Where>) {
    forall i :: 0 <= i < |where_| ==> where_[i](row)
  }

  /** primaryKeyValues: None when the model lacks a key field. */
  function KeyPredicates(columns: seq<Column>, fields: Row): Option<seq<Predicate>> {
    if columns == [] then Some([])
    else if !columns[0].primaryKey then KeyPredicates(columns[1..], fields)
    else if columns[0].name !in fields then None
    else
      match KeyPredicates(columns[1..], fields)
      case None => None
      case Some(rest) => Some([(columns[0].name, fields[columns[0].name])] + rest)
  }

  /** An UPDATE statement: the rows its conditions meet take the assignments. */
  function Overwrite(rows: seq<Row>, keys: seq<Predicate>, where_: seq<Where>, scopes: seq<Predicate>,
                     set_: Row): (rows': seq<Row>)
    ensures |rows'| == |rows|
  {
    seq(|rows|, i requires 0 <= i < |rows| =>
      if Satisfies(rows[i], keys) && Holds(rows[i], where_) && Satisfies(rows[i], scopes) then rows[i] + set_
          else rows[i])
  }

  /** The same change, said by scopes instead of predicates. */
  function OverwriteInScope(ac: Context, columns: seq<Column>, rows: seq<Row>, keys: seq<Predicate>, where_: seq<Where>,
                            set_: Row): (rows': seq<Row>)
    ensures |rows'| == |rows|
  {
    seq(|rows|, i requires 0 <= i < |rows| =>
      if Satisfies(rows[i], keys) && Holds(rows[i], where_) && InScope(ac, columns, rows[i]) then rows[i] + set_
          else rows[i])
  }

  lemma OverwritesOnlyInScope(ac: Context, columns: seq<Column>, rows: seq<Row>, keys: seq<Predicate>,
                              where_: seq<Where>, set_: Row)
    ensures Overwrite(rows, keys, where_, ScopePredicates(ac, columns), set_)
            == OverwriteInScope(ac, columns, rows, keys, where_, set_)
  {
    forall i | 0 <= i < |rows|
      ensures Satisfies(rows[i], ScopePredicates(ac, columns)) <==> InScope(ac, columns, rows[i])
    {
      PredicatesMeanScope(ac, columns, rows[i]);
    }
  }

  /** accessPredicates: the error of Apply is dropped, and then nothing restricts the statement. */
  function AccessPredicates(ac: Context, columns: seq<Column>): seq<Predicate> {
    if Missing(ac, columns, Query).None? then ScopePredicates(ac, columns) else []
  }

  /** A statement issued after its write checks passed changes exactly the rows it names within the caller's scopes. */
  lemma CheckedWriteStaysInScope(ac: Context, columns: seq<Column>, op: Operation, rows: seq<Row>, keys: seq<Predicate>,
                                 where_: seq<Where>, set_: Row)
    requires Missing(ac, columns, op).None?
    ensures Overwrite(rows, keys, where_, AccessPredicates(ac, columns), set_)
            == OverwriteInScope(ac, columns, rows, keys, where_, set_)
    ensures forall i :: 0 <= i < |rows| && !InScope(ac, columns, rows[i]) ==>
              Overwrite(rows, keys, where_, AccessPredicates(ac, columns), set_)[i] == rows[i]
  {
    WriteChecksImplyQueryChecks(ac, columns, op);
    OverwritesOnlyInScope(ac, columns, rows, keys, where_, set_);
  }

  function Accepted(accepts: seq<Row> -> bool, rows: seq<Row>): Result<seq<Row>, Error> {
    if accepts(rows) then Success(rows) else Failure(Refused)
  }

  /** Update (no where list) and UpdateWhere, as a function of the table; scopes appear as what they mean. */
  function UpdateOutcome(ac: Context, columns: seq<Column>, accepts: seq<Row> -> bool, rows: seq<Row>, fields: Row,
                         where_: Option<seq<Where>>, now: Cell)
    : Result<seq<Row>, Error>
  {
    if Missing(ac, columns, Update).Some? then Failure(MissingContext(Missing(ac, columns, Update).value))
    else
      var set_ := Named(columns, Collected(ac, columns, fields, Update, now), false);
      if set_ == map[] then Failure(NoColumns)
      else
        match where_
        case Some(w) => if w == [] then Failure(NoWhere)
            else Accepted(accepts, OverwriteInScope(ac, columns, rows, [], w, set_))
        case None =>
          match KeyPredicates(columns, fields)
          case None => Failure(NoPrimaryKey)
          case Some(keys) => if keys == [] then Failure(NoPrimaryKey)
              else Accepted(accepts, OverwriteInScope(ac, columns, rows, keys, [], set_))
  }

  /** The column soft deletion uses. */
  function SoftColumn(columns: seq<Column>): Option<Column> {
    if columns == [] then None else if columns[0].softDelete || columns[0].deletedAt then Some(columns[0])
        else SoftColumn(columns[1..])
  }

  function SoftSet(columns: seq<Column>, soft: Column, ac: Context, now: Cell): Row {
    var set_ := Named(columns, Populated(ac, columns, Delete, now)[soft.name := now], false);
    if set_ == map[] then map[soft.name := now] else set_
  }

  function SoftDeleteOutcome(ac: Context, columns: seq<Column>, accepts: seq<Row> -> bool, rows: seq<Row>, fields: Row,
                             now: Cell): Result<seq<Row>, Error> {
    match SoftColumn(columns)
    case None => Failure(NoSoftDelete)
    case Some(soft) =>
      if Missing(ac, columns, Delete).Some? then Failure(MissingContext(Missing(ac, columns, Delete).value))
      else
        match KeyPredicates(columns, fields)
        case None => Failure(NoPrimaryKey)
        case Some(keys) => Accepted(accepts, OverwriteInScope(ac, columns, rows, keys, [],
            SoftSet(columns, soft, ac, now)))
  }

  function CreateOutcome(ac: Context, columns: seq<Column>, accepts: seq<Row> -> bool, rows: seq<Row>, defaults: Row,
                         fields: Row, now: Cell): Result<seq<Row>, Error> {
    if Missing(ac, columns, Insert).Some? then Failure(MissingContext(Missing(ac, columns, Insert).value))
    else
      var named := Named(columns, Collected(ac, columns, fields, Insert, now), true);
      if named == map[] then Failure(NoColumns) else Accepted(accepts, rows + [defaults + named])
  }

  /** What Find lets through. */
  predicate Visible(ac: Context, columns: seq<Column>, where_: seq<Where>, withDeleted: bool, row: Row) {
    && Holds(row, where_) && InScope(ac, columns, row)
    && (withDeleted || !EnforcesSoftDelete(ac.policy) || SoftColumn(columns).None? ||
        Alive(SoftColumn(columns).value, row))
  }

  predicate Alive(soft: Column, row: Row) {
    soft.name !in row || row[soft.name].None?
  }

  function VisibleRows(ac: Context, columns: seq<Column>, where_: seq<Where>, withDeleted: bool,
                       rows: seq<Row>): seq<Row> {
    if rows == [] then []
    else (if Visible(ac, columns, where_, withDeleted, rows[0]) then [rows[0]] else []) +
         VisibleRows(ac, columns, where_, withDeleted, rows[1..])
  }

  function FindOutcome(ac: Context, columns: seq<Column>, where_: seq<Where>, withDeleted: bool,
                       rows: seq<Row>): Result<seq<Row>, Error> {
    match Missing(ac, columns, Query)
    case Some(f) => Failure(MissingContext(f))
    case None => Success(VisibleRows(ac, columns, where_, withDeleted, rows))
  }

  method PrimaryKeyValues(columns: seq<Column>, fields: Row) returns (keys: seq<Predicate>, err: Option<Error>)
    ensures match KeyPredicates(columns, fields)
            case None => err == Some(NoPrimaryKey)
            case Some(k) => err == None && keys == k
  {
    keys := [];
    for i := 0 to |columns|
      invariant KeyPredicates(columns, fields).None? <==> KeyPredicates(columns[i..], fields).None?
      invariant KeyPredicates(columns, fields).Some? ==>
        keys + KeyPredicates(columns[i..], fields).value == KeyPredicates(columns, fields).value
    {
      assert columns[i..][0] == columns[i] && columns[i..][1..] == columns[i + 1..];
      if !columns[i].primaryKey { continue; }
      if columns[i].name !in fields { return keys, Some(NoPrimaryKey); }
      keys := keys + [(columns[i].name, fields[columns[i].name])];
    }
    err := None;
  }

  /** The WHERE clause as Find puts it together. */
  predicate Passes(where_: seq<Where>, alive: Option<Column>, preds: seq<Predicate>, row: Row) {
    Holds(row, where_) && (alive.None? || Alive(alive.value, row)) && Satisfies(row, preds)
  }

  function PassingRows(where_: seq<Where>, alive: Option<Column>, preds: seq<Predicate>, rows: seq<Row>): seq<Row> {
    if rows == [] then []
    else (if Passes(where_, alive, preds, rows[0]) then [rows[0]] else []) +
         PassingRows(where_, alive, preds, rows[1..])
  }

  lemma PassingStep(where_: seq<Where>, alive: Option<Column>, preds: seq<Predicate>, rows: seq<Row>, i: nat,
                    found: seq<Row>)
    requires i < |rows|
    ensures found + PassingRows(where_, alive, preds, rows[i..])
            == (found + if Passes(where_, alive, preds, rows[i]) then [rows[i]] else []) +
                PassingRows(where_, alive, preds, rows[i + 1..])
  {
    PassingNext(where_, alive, preds, rows, i);
    Regrouped(found, if Passes(where_, alive, preds, rows[i]) then [rows[i]] else [],
        PassingRows(where_, alive, preds, rows[i + 1..]));
  }

  lemma PassingNext(where_: seq<Where>, alive: Option<Column>, preds: seq<Predicate>, rows: seq<Row>, i: nat)
    requires i < |rows|
    ensures PassingRows(where_, alive, preds, rows[i..])
            == (if Passes(where_, alive, preds, rows[i]) then [rows[i]] else []) +
                PassingRows(where_, alive, preds, rows[i + 1..])
  {
    assert rows[i..][0] == rows[i] && rows[i..][1..] == rows[i + 1..];
  }

  lemma {:induction false} PassingIsVisible(ac: Context, columns: seq<Column>, where_: seq<Where>, withDeleted: bool,
                                            rows: seq<Row>)
    ensures PassingRows(where_, if !withDeleted && EnforcesSoftDelete(ac.policy) then SoftColumn(columns) else None,
            ScopePredicates(ac, columns), rows)
            == VisibleRows(ac, columns, where_, withDeleted, rows)
  {
    if rows != [] {
      PredicatesMeanScope(ac, columns, rows[0]);
      PassingIsVisible(ac, columns, where_, withDeleted, rows[1..]);
    }
  }

  /** A table as one session sees it: the caller's context, the table's constraints and column defaults. */
  class Session {
    const ac: Context
    const columns: seq<Column>
    const defaults: Row
    const accepts: seq<Row> -> bool
    var rows: seq<Row>

    constructor (ac: Context, columns: seq<Column>, defaults: Row, accepts: seq<Row> -> bool, rows: seq<Row>)
      ensures this.ac == ac && this.columns == columns && this.defaults == defaults && this.accepts == accepts &&
        this.rows == rows
    {
      this.ac, this.columns, this.defaults, this.accepts, this.rows := ac, columns, defaults, accepts, rows;
    }

    method ScopeConditions() returns (preds: seq<Predicate>)
      ensures preds == AccessPredicates(ac, columns)
    {
      var writes, err;
      preds, writes, err := Apply(ac, columns, Query);
    }

    /** Find's WHERE list: the caller's conditions, then the soft-delete condition, then the scope conditions. */
    method Find(where_: seq<Where>, withDeleted: bool) returns (r: Result<seq<Row>, Error>)
      ensures r == FindOutcome(ac, columns, where_, withDeleted, rows)
    {
      var soft := SoftColumn(columns);
      var alive := if !withDeleted && EnforcesSoftDelete(ac.policy) then soft else None;
      var preds, writes, err := Apply(ac, columns, Query);
      if err.Some? { return Failure(err.value); }
      var found := Scan(where_, alive, preds);
      PassingIsVisible(ac, columns, where_, withDeleted, rows);
      r := Success(found);
    }

    method Scan(where_: seq<Where>, alive: Option<Column>, preds: seq<Predicate>) returns (found: seq<Row>)
      ensures found == PassingRows(where_, alive, preds, rows)
    {
      found := [];
      assert rows[0..] == rows;
      for i := 0 to |rows|
        invariant found + PassingRows(where_, alive, preds, rows[i..]) == PassingRows(where_, alive, preds, rows)
      {
        PassingStep(where_, alive, preds, rows, i, found);
        found := found + if Passes(where_, alive, preds, rows[i]) then [rows[i]] else [];
      }
      assert rows[|rows|..] == [];
    }

    method Execute(keys: seq<Predicate>, where_: seq<Where>, scopes: seq<Predicate>, set_: Row)
      returns (err: Option<Error>)
      modifies this`rows
      ensures match Accepted(accepts, Overwrite(old(rows), keys, where_, scopes, set_))
              case Success(rows') => rows == rows' && err == None
              case Failure(e) => rows == old(rows) && err == Some(e)
    {
      var rows' := Overwrite(rows, keys, where_, scopes, set_);
      if !accepts(rows') { return Some(Refused); }
      rows := rows';
      err := None;
    }

    /** Session.update for Update (where_ absent) and UpdateWhere. */
    method Update(fields: Row, where_: Option<seq<Where>>, now: Cell) returns (err: Option<Error>)
      modifies this`rows
      ensures match UpdateOutcome(ac, columns, accepts, old(rows), fields, where_, now)
              case Success(rows') => rows == rows' && err == None
              case Failure(e) => rows == old(rows) && err == Some(e)
    {
      var values;
      values, err := PopulateAuditAndScope(ac, columns, Operation.Update, now);
      if err.Some? { return; }
      values := ApplyStructFieldValues(ac, columns, fields, values, now, false);
      var set_ := Named(columns, values, false);
      if set_ == map[] { return Some(NoColumns); }
      var keys: seq<Predicate>, extra: seq<Where> := [], [];
      match where_ {
        case None =>
          keys, err := PrimaryKeyValues(columns, fields);
          if err.Some? { return; }
          if |keys| == 0 { return Some(NoPrimaryKey); }
        case Some(w) =>
          if |w| == 0 { return Some(NoWhere); }
          extra := w;
      }
      var scopes := ScopeConditions();
      CheckedWriteStaysInScope(ac, columns, Operation.Update, rows, keys, extra, set_);
      err := Execute(keys, extra, scopes, set_);
    }

    method SoftDelete(fields: Row, now: Cell) returns (err: Option<Error>)
      modifies this`rows
      ensures match SoftDeleteOutcome(ac, columns, accepts, old(rows), fields, now)
              case Success(rows') => rows == rows' && err == None
              case Failure(e) => rows == old(rows) && err == Some(e)
    {
      var soft := SoftColumn(columns);
      if soft.None? { return Some(NoSoftDelete); }
      var values;
      values, err := PopulateAuditAndScope(ac, columns, Operation.Delete, now);
      if err.Some? { return; }
      values := values[soft.value.name := now];
      var keys;
      keys, err := PrimaryKeyValues(columns, fields);
      if err.Some? { return; }
      var set_ := Named(columns, values, false);
      if set_ == map[] { set_ := map[soft.value.name := now]; }
      var scopes := ScopeConditions();
      CheckedWriteStaysInScope(ac, columns, Operation.Delete, rows, keys, [], set_);
      err := Execute(keys, [], scopes, set_);
    }

    method Create(fields: Row, now: Cell) returns (err: Option<Error>)
      modifies this`rows
      ensures match CreateOutcome(ac, columns, accepts, old(rows), defaults, fields, now)
              case Success(rows') => rows == rows' && err == None
              case Failure(e) => rows == old(rows) && err == Some(e)
    {
      var values;
      values, err := PopulateAuditAndScope(ac, columns, Operation.Insert, now);
      if err.Some? { return; }
      values := ApplyStructFieldValues(ac, columns, fields, values, now, true);
      var named := Named(columns, values, true);
      if named == map[] { return Some(NoColumns); }
      if !accepts(rows + [defaults + named]) { return Some(Refused); }
      rows := rows + [defaults + named];
      err := None;
    }
  }

  // ------------------------------------------------------------------------- theorems

  predicate UniqueNames(columns: seq<Column>) {
    forall i, j :: 0 <= i < j < |columns| ==> columns[i].name != columns[j].name
  }

  predicate NamesOther(columns: seq<Column>, n: string) {
    forall i :: 0 <= i < |columns| ==> columns[i].name != n
  }

  lemma UniqueRest(columns: seq<Column>)
    requires columns != [] && UniqueNames(columns)
    ensures UniqueNames(columns[1..]) && NamesOther(columns[1..], columns[0].name)
  {
    assert forall i :: 0 <= i < |columns[1..]| ==> columns[1..][i] == columns[i + 1];
  }

  function At(values: Row, n: string): Option<Cell> {
    if n in values then Some(values[n]) else None
  }

  lemma {:induction false} WithMoreWrites(values: Row, a: seq<Predicate>, b: seq<Predicate>)
    ensures WithWrites(values, a + b) == WithWrites(WithWrites(values, a), b)
    decreases |a|
  {
    if a == [] {
      assert a + b == b;
    } else {
      assert (a + b)[1..] == a[1..] + b;
      WithMoreWrites(values[a[0].0 := a[0].1], a[1..], b);
    }
  }

  /** What the access layer writes to a column: the user counts for more than the scope id. */
  function Written(ac: Context, c: Column, op: Operation): Option<Cell> {
    if EnforcesAudit(ac.policy) && ac.user.Some? && (op == Insert || op == Update) && NeedsUser(c, op) then
        Some(ac.user)
    else if Active(ac, c) && op == Insert then Some(IdOf(ac, c.scope))
    else None
  }

  lemma OneColumnWritten(ac: Context, c: Column, op: Operation, values: Row, n: string)
    ensures At(WithWrites(values, ColumnWrites(ac, c, op)), n)
            == if n == c.name && Written(ac, c, op).Some? then Written(ac, c, op) else At(values, n)
  {
    var id, user := (c.name, IdOf(ac, c.scope)), (c.name, ac.user);
    var first := if Active(ac, c) && op == Insert then [id] else [];
    var second := if EnforcesAudit(ac.policy) && ac.user.Some? && (op == Insert || op == Update) &&
        NeedsUser(c, op) then [user] else [];
    WithMoreWrites(values, first, second);
    assert [id][1..] == [] && [user][1..] == [];
  }

  lemma {:induction false} WrittenAt(ac: Context, columns: seq<Column>, op: Operation, values: Row, n: string, k: nat)
    requires UniqueNames(columns) && (NamesOther(columns, n) || (k < |columns| && columns[k].name == n))
    ensures At(WithWrites(values, Writes(ac, columns, op)), n)
            == if !NamesOther(columns, n) && Written(ac, columns[k], op).Some? then Written(ac, columns[k], op)
                else At(values, n)
    decreases |columns|
  {
    if columns != [] {
      UniqueRest(columns);
      assert forall i :: 0 <= i < |columns[1..]| ==> columns[1..][i] == columns[i + 1];
      var first := WithWrites(values, ColumnWrites(ac, columns[0], op));
      WithMoreWrites(values, ColumnWrites(ac, columns[0], op), Writes(ac, columns[1..], op));
      OneColumnWritten(ac, columns[0], op, values, n);
      WrittenAt(ac, columns[1..], op, first, n, if k > 0 then k - 1 else 0);
    }
  }

  lemma {:induction false} StampedAt(columns: seq<Column>, op: Operation, now: Cell, values: Row, n: string, k: nat)
    requires UniqueNames(columns) && (NamesOther(columns, n) || (k < |columns| && columns[k].name == n))
    ensures At(WithStamps(values, columns, op, now), n)
            == if !NamesOther(columns, n) && Stamped(columns[k], op) then Some(now) else At(values, n)
    decreases |columns|
  {
    if columns != [] {
      UniqueRest(columns);
      assert forall i :: 0 <= i < |columns[1..]| ==> columns[1..][i] == columns[i + 1];
      var first := if Stamped(columns[0], op) then values[columns[0].name := now] else values;
      StampedAt(columns[1..], op, now, first, n, if k > 0 then k - 1 else 0);
    }
  }

  lemma {:induction false} FilledAt(columns: seq<Column>, fields: Row, now: Cell, isInsert: bool, values: Row,
                                    n: string, k: nat)
    requires UniqueNames(columns) && (NamesOther(columns, n) || (k < |columns| && columns[k].name == n))
    ensures At(WithFields(values, columns, fields, now, isInsert), n)
            == if !NamesOther(columns, n) && n !in values then FieldValue(columns[k], fields, now, isInsert)
                else At(values, n)
    decreases |columns|
  {
    if columns != [] {
      UniqueRest(columns);
      assert forall i :: 0 <= i < |columns[1..]| ==> columns[1..][i] == columns[i + 1];
      FilledAt(columns[1..], fields, now, isInsert, WithField(values, columns[0], fields, now, isInsert), n,
          if k > 0 then k - 1 else 0);
    }
  }

  /**
   * What Create or Update collects for a column: the time, the user, the caller's scope id, the model's own value, in
   * this order.
   */
  function Contribution(ac: Context, c: Column, fields: Row, op: Operation, now: Cell): Option<Cell> {
    if Stamped(c, op) then Some(now)
    else if Written(ac, c, op).Some? then Written(ac, c, op)
    else FieldValue(c, fields, now, op == Insert)
  }

  lemma CollectedAt(ac: Context, columns: seq<Column>, fields: Row, op: Operation, now: Cell, k: nat)
    requires UniqueNames(columns) && EnforcesAudit(ac.policy) && k < |columns|
    ensures At(Collected(ac, columns, fields, op, now), columns[k].name)
            == Contribution(ac, columns[k], fields, op, now)
  {
    var n := columns[k].name;
    var written := WithWrites(map[], Writes(ac, columns, op));
    WrittenAt(ac, columns, op, map[], n, k);
    StampedAt(columns, op, now, written, n, k);
    FilledAt(columns, fields, now, op == Insert, Populated(ac, columns, op, now), n, k);
  }

  /**
   * A row a scoped caller creates belongs to the caller, unless a scope column is an audit column that takes another
   * value.
   */
  lemma CreatedRowIsInScopeIff(ac: Context, columns: seq<Column>, accepts: seq<Row> -> bool, rows: seq<Row>,
                               defaults: Row, fields: Row, now: Cell)
    requires UniqueNames(columns) && CreateOutcome(ac, columns, accepts, rows, defaults, fields, now).Success?
    ensures var rows' := CreateOutcome(ac, columns, accepts, rows, defaults, fields, now).value;
            && |rows'| == |rows| + 1 && rows'[..|rows|] == rows
            && (InScope(ac, columns, rows'[|rows|])
                <==> forall k :: 0 <= k < |columns| && Active(ac, columns[k]) ==> KeepsIdOnInsert(ac, columns[k], now))
  {
    var row := CreateOutcome(ac, columns, accepts, rows, defaults, fields, now).value[|rows|];
    forall k | 0 <= k < |columns| && Active(ac, columns[k])
      ensures IdOf(ac, columns[k].scope).Some? && columns[k].name in row
      ensures row[columns[k].name] == IdOf(ac, columns[k].scope) <==> KeepsIdOnInsert(ac, columns[k], now)
    {
      CompleteContext(ac, columns, Insert, k);
      CollectedAt(ac, columns, fields, Insert, now, k);
      assert Writable(columns, columns[k].name, true);
    }
  }

  /** An insert puts the caller's id into the scope column: always, if it is no audit column. */
  predicate KeepsIdOnInsert(ac: Context, c: Column, now: Cell) {
    var id := IdOf(ac, c.scope);
    if c.createdAt || c.updatedAt then now == id else c.createdBy || c.updatedBy || c.deletedBy ==> ac.user == id
  }

  lemma {:induction false} CompleteContext(ac: Context, columns: seq<Column>, op: Operation, k: nat)
    requires Missing(ac, columns, op).None? && k < |columns| && Active(ac, columns[k])
    ensures IdOf(ac, columns[k].scope).Some? && (NeedsUser(columns[k], op) ==> ac.user.Some?)
  {
    if k > 0 { CompleteContext(ac, columns[1..], op, k - 1); }
  }

  /** The rows an update names, within the caller's scopes. */
  predicate Reached(ac: Context, columns: seq<Column>, fields: Row, where_: Option<seq<Where>>, row: Row) {
    && InScope(ac, columns, row)
    && match where_
       case Some(w) => Holds(row, w)
       case None => KeyPredicates(columns, fields).Some? && Satisfies(row, KeyPredicates(columns, fields).value)
  }

  /** What an update assigns to a column; keys and versions take no part. */
  function Assigned(ac: Context, c: Column, fields: Row, now: Cell): Option<Cell> {
    if c.primaryKey || c.version then None else Contribution(ac, c, fields, Operation.Update, now)
  }

  lemma {:induction false} KeyNames(columns: seq<Column>, k: nat)
    requires UniqueNames(columns) && k < |columns|
    ensures columns[k].name in PrimaryKeys(columns) <==> columns[k].primaryKey
    decreases |columns|
  {
    UniqueRest(columns);
    if k > 0 {
      KeyNames(columns[1..], k - 1);
    } else {
      OtherKeys(columns[1..], columns[0].name);
    }
  }

  lemma {:induction false} OtherKeys(columns: seq<Column>, n: string)
    requires NamesOther(columns, n)
    ensures n !in PrimaryKeys(columns)
  {
    if columns != [] {
      assert forall i :: 0 <= i < |columns[1..]| ==> columns[1..][i] == columns[i + 1];
      OtherKeys(columns[1..], n);
    }
  }

  lemma AssignedAt(ac: Context, columns: seq<Column>, fields: Row, now: Cell, k: nat)
    requires UniqueNames(columns) && EnforcesAudit(ac.policy) && k < |columns|
    ensures At(Named(columns, Collected(ac, columns, fields, Operation.Update, now), false), columns[k].name)
            == Assigned(ac, columns[k], fields, now)
  {
    CollectedAt(ac, columns, fields, Operation.Update, now, k);
    KeyNames(columns, k);
    var n := columns[k].name;
    assert Writable(columns, n, false) <==> n !in PrimaryKeys(columns) && !columns[k].version by {
      forall i | 0 <= i < |columns| && columns[i].name == n ensures i == k { }
    }
  }

  /**
   * Scope columns are not filtered on update: a row the caller updates stays in the caller's scopes if and only if the
   * update assigns nothing but the caller's id to them.
   */
  lemma UpdatedRowStaysIff(ac: Context, columns: seq<Column>, accepts: seq<Row> -> bool, rows: seq<Row>, fields: Row,
                           where_: Option<seq<Where>>, now: Cell, i: nat)
    requires UniqueNames(columns) && i < |rows| &&
             UpdateOutcome(ac, columns, accepts, rows, fields, where_, now).Success?
    requires Reached(ac, columns, fields, where_, rows[i])
    ensures var rows' := UpdateOutcome(ac, columns, accepts, rows, fields, where_, now).value;
            && |rows'| == |rows|
            && (InScope(ac, columns, rows'[i])
                <==> forall k :: 0 <= k < |columns| && Active(ac, columns[k]) ==>
                    KeepsIdOnUpdate(ac, columns[k], fields, now))
  {
    var row := UpdateOutcome(ac, columns, accepts, rows, fields, where_, now).value[i];
    var set_ := Named(columns, Collected(ac, columns, fields, Operation.Update, now), false);
    assert Satisfies(rows[i], []) && Holds(rows[i], []);
    assert row == rows[i] + set_;
    forall k | 0 <= k < |columns| && Active(ac, columns[k])
      ensures IdOf(ac, columns[k].scope).Some? && columns[k].name in row
      ensures row[columns[k].name] == IdOf(ac, columns[k].scope) <==> KeepsIdOnUpdate(ac, columns[k], fields, now)
    {
      AssignedAt(ac, columns, fields, now, k);
    }
  }

  predicate KeepsIdOnUpdate(ac: Context, c: Column, fields: Row, now: Cell) {
    Assigned(ac, c, fields, now).None? || Assigned(ac, c, fields, now) == Some(IdOf(ac, c.scope))
  }

  /** For a scope column that is nothing else besides: the model's field is absent, zero or the caller's id. */
  lemma PlainScopeKeepsIff(ac: Context, c: Column, fields: Row, now: Cell)
    requires !c.scope.Unscoped? && !c.primaryKey && !c.version && !c.createdAt && !c.updatedAt && !c.deletedAt &&
             !c.updatedBy
    ensures KeepsIdOnUpdate(ac, c, fields, now) <==>
            c.name !in fields || IsZero(fields[c.name]) || fields[c.name] == IdOf(ac, c.scope)
  {
  }

  /** The system policy lifts every filter, but it also collects no values: nothing is created or updated under it. */
  lemma SystemPolicyWritesNothing(ac: Context, columns: seq<Column>, accepts: seq<Row> -> bool, rows: seq<Row>,
                                  defaults: Row, fields: Row, where_: Option<seq<Where>>, now: Cell)
    requires IsSystem(ac.policy)
    ensures CreateOutcome(ac, columns, accepts, rows, defaults, fields, now) == Failure(NoColumns)
    ensures UpdateOutcome(ac, columns, accepts, rows, fields, where_, now) == Failure(NoColumns)
  {
    SystemWrites(ac, columns, Insert);
    SystemWrites(ac, columns, Operation.Update);
  }

  lemma {:induction false} SystemWrites(ac: Context, columns: seq<Column>, op: Operation)
    requires IsSystem(ac.policy)
    ensures Writes(ac, columns, op) == []
  {
    if columns != [] { SystemWrites(ac, columns[1..], op); }
  }

  lemma RankDecides(ac: Context, p: string, c: Column)
    requires Rank(ac.policy) <= Rank(p) && Active(ac.(policy := p), c)
    ensures Active(ac, c)
  {
  }

  lemma {:induction false} WiderPolicyAsksLess(ac: Context, p: string, columns: seq<Column>, op: Operation)
    requires Rank(ac.policy) <= Rank(p) && Missing(ac, columns, op).None?
    ensures Missing(ac.(policy := p), columns, op).None?
  {
    if columns != [] {
      WiderPolicyAsksLess(ac, p, columns[1..], op);
      var wide := ac.(policy := p);
      assert IdOf(wide, columns[0].scope) == IdOf(ac, columns[0].scope);
    }
  }

  lemma WiderPolicyShowsMore(ac: Context, p: string, columns: seq<Column>, where_: seq<Where>, withDeleted: bool,
                             row: Row)
    requires Rank(ac.policy) <= Rank(p) && Visible(ac, columns, where_, withDeleted, row)
    ensures Visible(ac.(policy := p), columns, where_, withDeleted, row)
  {
    var wide := ac.(policy := p);
    forall i | 0 <= i < |columns| && Active(wide, columns[i])
      ensures IdOf(wide, columns[i].scope).Some? && columns[i].name in row &&
        row[columns[i].name] == IdOf(wide, columns[i].scope)
    {
      RankDecides(ac, p, columns[i]);
      assert IdOf(wide, columns[i].scope) == IdOf(ac, columns[i].scope);
    }
  }

  lemma {:induction false} NarrowOfWide(ac: Context, p: string, columns: seq<Column>, where_: seq<Where>,
                                        withDeleted: bool, rows: seq<Row>)
    requires Rank(ac.policy) <= Rank(p)
    ensures VisibleRows(ac, columns, where_, withDeleted,
            VisibleRows(ac.(policy := p), columns, where_, withDeleted, rows))
            == VisibleRows(ac, columns, where_, withDeleted, rows)
  {
    if rows != [] {
      NarrowOfWide(ac, p, columns, where_, withDeleted, rows[1..]);
      var wide := VisibleRows(ac.(policy := p), columns, where_, withDeleted, rows);
      var rest := VisibleRows(ac.(policy := p), columns, where_, withDeleted, rows[1..]);
      if Visible(ac, columns, where_, withDeleted, rows[0]) {
        WiderPolicyShowsMore(ac, p, columns, where_, withDeleted, rows[0]);
      }
      if Visible(ac.(policy := p), columns, where_, withDeleted, rows[0]) {
        assert wide == [rows[0]] + rest && wide[1..] == rest;
      } else {
        assert wide == rest;
      }
    }
  }

  /**
   * Along Default, IgnoreCompany, IgnoreRLS, System a Find never starts to fail, and its answer only grows: filtering
   * the wider answer gives the narrower.
   */
  lemma FindGrowsWithPolicy(ac: Context, p: string, columns: seq<Column>, where_: seq<Where>, withDeleted: bool,
                            rows: seq<Row>)
    requires Rank(ac.policy) <= Rank(p) && FindOutcome(ac, columns, where_, withDeleted, rows).Success?
    ensures FindOutcome(ac.(policy := p), columns, where_, withDeleted, rows).Success?
    ensures VisibleRows(ac, columns, where_, withDeleted,
            FindOutcome(ac.(policy := p), columns, where_, withDeleted, rows).value)
            == FindOutcome(ac, columns, where_, withDeleted, rows).value
  {
    WiderPolicyAsksLess(ac, p, columns, Query);
    NarrowOfWide(ac, p, columns, where_, withDeleted, rows);
  }
}
