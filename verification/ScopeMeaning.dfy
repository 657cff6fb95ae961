/** AccessScope's operations in plain terms: context fields, policy names and column marks, each written out. */
module ScopeMeaning {
  import opened AccessScope
  import opened Wrappers

  // ------------------------------------------------------------------- whose rows, by policy

  /** Every column of this scope holds this id, which the caller has. */
  ghost predicate AllHold(columns: seq<Column>, scope: Scope, id: Cell, row: Row) {
    forall i :: 0 <= i < |columns| && columns[i].scope == scope ==>
      id.Some? && columns[i].name in row && row[columns[i].name] == id
  }

  /** The row belongs to the caller as far as the policy asks. A level nobody defined asks for everything. */
  ghost predicate Own(ac: Context, columns: seq<Column>, row: Row) {
    && (ac.policy != "ignore_company" && ac.policy != "ignore_rls" && ac.policy != "system" ==>
          AllHold(columns, Company, ac.company, row))
    && (ac.policy != "ignore_rls" && ac.policy != "system" ==>
          && AllHold(columns, Tenant, ac.tenant, row) && AllHold(columns, Organization, ac.organization, row)
          && AllHold(columns, Workspace, ac.workspace, row) && AllHold(columns, Warehouse, ac.warehouse, row)
          && AllHold(columns, User, ac.user, row))
  }

  lemma InScopeMeansOwn(ac: Context, columns: seq<Column>, row: Row)
    ensures InScope(ac, columns, row) <==> Own(ac, columns, row)
  {
  }

  /** The caller has this id if a column asks for it. */
  ghost predicate Has(columns: seq<Column>, scope: Scope, id: Cell) {
    forall i :: 0 <= i < |columns| && columns[i].scope == scope ==> id.Some?
  }

  /** The caller has every id the policy asks for, and is somebody if the operation leaves a user behind. */
  ghost predicate HasAll(ac: Context, columns: seq<Column>, op: Operation) {
    && (ac.policy != "ignore_company" && ac.policy != "ignore_rls" && ac.policy != "system" ==>
          Has(columns, Company, ac.company))
    && (ac.policy != "ignore_rls" && ac.policy != "system" ==>
          && Has(columns, Tenant, ac.tenant) && Has(columns, Organization, ac.organization)
          && Has(columns, Workspace, ac.workspace) && Has(columns, Warehouse, ac.warehouse)
          && Has(columns, User, ac.user))
    && (ac.policy != "system" ==> HasUser(columns, op, ac.user))
  }

  /** An insert signs every by-column, an update the updater's, a deletion the deleter's. */
  ghost predicate HasUser(columns: seq<Column>, op: Operation, user: Cell) {
    forall i :: 0 <= i < |columns| ==>
      var c := columns[i];
      (op == Insert && (c.createdBy || c.updatedBy || c.deletedBy)) || (op == Operation.Update && c.updatedBy)
        || (op == Delete && c.deletedBy)
      ==> user.Some?
  }

  /** The first column that asks for something the caller lacks. */
  ghost predicate FirstLacking(ac: Context, columns: seq<Column>, op: Operation, i: int) {
    0 <= i < |columns| && HasAll(ac, columns[..i], op) && !HasAll(ac, [columns[i]], op)
  }

  /** What it asks for: its scope's id, or else the user. */
  ghost function LackedAt(ac: Context, c: Column): Scope {
    if HasAll(ac, [c], Query) then User else c.scope
  }

  lemma HasSplit(columns: seq<Column>, scope: Scope, id: Cell)
    requires columns != []
    ensures Has(columns, scope, id) <==> Has([columns[0]], scope, id) && Has(columns[1..], scope, id)
  {
    assert columns[0] == [columns[0]][0];
    assert forall i :: 0 < i < |columns| ==> columns[i] == columns[1..][i - 1];
    assert forall i :: 0 <= i < |columns[1..]| ==> columns[1..][i] == columns[i + 1];
  }

  lemma HasUserSplit(columns: seq<Column>, op: Operation, user: Cell)
    requires columns != []
    ensures HasUser(columns, op, user) <==> HasUser([columns[0]], op, user) && HasUser(columns[1..], op, user)
  {
    assert columns[0] == [columns[0]][0];
    assert forall i :: 0 < i < |columns| ==> columns[i] == columns[1..][i - 1];
    assert forall i :: 0 <= i < |columns[1..]| ==> columns[1..][i] == columns[i + 1];
  }

  lemma HasAllSplit(ac: Context, columns: seq<Column>, op: Operation)
    requires columns != []
    ensures HasAll(ac, columns, op) <==> HasAll(ac, [columns[0]], op) && HasAll(ac, columns[1..], op)
  {
    HasSplit(columns, Company, ac.company);
    HasSplit(columns, Tenant, ac.tenant);
    HasSplit(columns, Organization, ac.organization);
    HasSplit(columns, Workspace, ac.workspace);
    HasSplit(columns, Warehouse, ac.warehouse);
    HasSplit(columns, User, ac.user);
    HasUserSplit(columns, op, ac.user);
  }

  lemma MissingAtColumn(ac: Context, c: Column, op: Operation)
    ensures !IsSystem(ac.policy) ==>
              MissingAt(ac, c, op) == if HasAll(ac, [c], op) then None else Some(LackedAt(ac, c))
    ensures IsSystem(ac.policy) ==> HasAll(ac, [c], op)
  {
    assert [c][0] == c;
  }

  /** An operation starts if and only if the caller has all it asks for; otherwise the first lack is reported. */
  lemma {:induction false} MissingMeansLacking(ac: Context, columns: seq<Column>, op: Operation)
    ensures Missing(ac, columns, op).None? <==> HasAll(ac, columns, op)
    ensures forall i :: FirstLacking(ac, columns, op, i) ==>
              Missing(ac, columns, op) == Some(LackedAt(ac, columns[i]))
    decreases |columns|
  {
    if columns != [] {
      MissingMeansLacking(ac, columns[1..], op);
      HasAllSplit(ac, columns, op);
      MissingAtColumn(ac, columns[0], op);
      forall i | FirstLacking(ac, columns, op, i) ensures Missing(ac, columns, op) == Some(LackedAt(ac, columns[i])) {
        if i > 0 {
          HasAllSplit(ac, columns[..i], op);
          assert columns[..i][0] == columns[0] && columns[..i][1..] == columns[1..][..i - 1];
          assert FirstLacking(ac, columns[1..], op, i - 1);
        } else {
          assert [columns[0]] == [columns[i]];
        }
      }
    }
  }

  // --------------------------------------------------------------------------- Find

  /** The column soft deletion looks at is the first one marked soft_delete or deleted_at. */
  ghost predicate FirstMarked(columns: seq<Column>, k: int) {
    && 0 <= k < |columns| && (columns[k].softDelete || columns[k].deletedAt)
    && forall i :: 0 <= i < k ==> !columns[i].softDelete && !columns[i].deletedAt
  }

  lemma {:induction false} SoftColumnIsFirstMarked(columns: seq<Column>)
    ensures SoftColumn(columns).Some? <==> exists k :: FirstMarked(columns, k)
    ensures forall k :: FirstMarked(columns, k) ==> SoftColumn(columns) == Some(columns[k])
  {
    if columns != [] {
      SoftColumnIsFirstMarked(columns[1..]);
      assert forall i :: 0 < i < |columns| ==> columns[i] == columns[1..][i - 1];
      assert forall k :: k > 0 && FirstMarked(columns, k) ==> FirstMarked(columns[1..], k - 1);
      if columns[0].softDelete || columns[0].deletedAt {
        assert FirstMarked(columns, 0);
      } else {
        forall k | FirstMarked(columns[1..], k) ensures FirstMarked(columns, k + 1) { }
      }
    }
  }

  /** Nothing in the soft-delete column, if there is one. */
  ghost predicate NotDeleted(columns: seq<Column>, row: Row) {
    forall k :: FirstMarked(columns, k) ==> columns[k].name !in row || row[columns[k].name] == None
  }

  /** The rows Find is to return: those that meet the conditions, are the caller's and are not deleted. */
  ghost predicate Shown(ac: Context, columns: seq<Column>, where_: seq<Where>, withDeleted: bool, row: Row) {
    && (forall i :: 0 <= i < |where_| ==> where_[i](row)) && Own(ac, columns, row)
    && (withDeleted || ac.policy == "system" || NotDeleted(columns, row))
  }

  lemma VisibleMeansShown(ac: Context, columns: seq<Column>, where_: seq<Where>, withDeleted: bool, row: Row)
    ensures Visible(ac, columns, where_, withDeleted, row) <==> Shown(ac, columns, where_, withDeleted, row)
  {
    InScopeMeansOwn(ac, columns, row);
    SoftColumnIsFirstMarked(columns);
  }

  /** The elements of a list that are kept, in their order. */
  ghost function Kept<T>(s: seq<T>, keep: T -> bool): seq<T> {
    if s == [] then [] else (if keep(s[0]) then [s[0]] else []) + Kept(s[1..], keep)
  }

  lemma {:induction false} VisibleRowsAreKept(ac: Context, columns: seq<Column>, where_: seq<Where>, withDeleted: bool,
                                              rows: seq<Row>)
    ensures VisibleRows(ac, columns, where_, withDeleted, rows)
            == Kept(rows, row => Shown(ac, columns, where_, withDeleted, row))
  {
    if rows != [] {
      VisibleMeansShown(ac, columns, where_, withDeleted, rows[0]);
      VisibleRowsAreKept(ac, columns, where_, withDeleted, rows[1..]);
    }
  }

  /**
   * Find's answer. Under the default policy: the rows that meet the conditions, hold the caller's company, tenant,
   * organization, workspace, warehouse and user in every column of these scopes, and are not deleted. The
   * ignore_company level leaves out the company, ignore_rls every scope, system also the deletion. If the caller lacks
   * an id that is asked for, the first such column's scope is reported instead.
   */
  lemma FindAnswers(ac: Context, columns: seq<Column>, where_: seq<Where>, withDeleted: bool, rows: seq<Row>)
    ensures HasAll(ac, columns, Query) ==>
              FindOutcome(ac, columns, where_, withDeleted, rows)
              == Success(Kept(rows, row => Shown(ac, columns, where_, withDeleted, row)))
    ensures !HasAll(ac, columns, Query) ==> FindOutcome(ac, columns, where_, withDeleted, rows).Failure?
    ensures forall i :: FirstLacking(ac, columns, Query, i) ==>
              FindOutcome(ac, columns, where_, withDeleted, rows) == Failure(MissingContext(LackedAt(ac, columns[i])))
  {
    MissingMeansLacking(ac, columns, Query);
    VisibleRowsAreKept(ac, columns, where_, withDeleted, rows);
  }

  // ------------------------------------------------------------ what a write puts into a column

  /** What Create puts into a column, mark by mark; None leaves it to the database's default. */
  ghost predicate CreatedCell(ac: Context, c: Column, fields: Row, now: Cell, v: Option<Cell>) {
    var field := if c.name in fields && !c.version then Some(fields[c.name]) else None;
    var given := if field.Some? && field.value != None && field.value != Some(0) then field else None;
    if c.createdAt || c.updatedAt then v == Some(now)
    else if c.createdBy || c.updatedBy || c.deletedBy then ac.user.Some? && v == Some(ac.user)
    else if ac.policy == "ignore_rls" && c.scope != Unscoped then v == given
    else
      match c.scope
      case Unscoped => v == field
      case Company => if ac.policy == "ignore_company" then v == given else v == Some(ac.company)
      case Tenant => v == Some(ac.tenant)
      case Organization => v == Some(ac.organization)
      case Workspace => v == Some(ac.workspace)
      case Warehouse => v == Some(ac.warehouse)
      case User => v == Some(ac.user)
  }

  lemma CreatedCells(ac: Context, columns: seq<Column>, fields: Row, now: Cell, k: nat)
    requires UniqueNames(columns) && ac.policy != "system" && Missing(ac, columns, Insert).None? && k < |columns|
    ensures CreatedCell(ac, columns[k], fields, now,
                        At(Named(columns, Collected(ac, columns, fields, Insert, now), true), columns[k].name))
  {
    CollectedAt(ac, columns, fields, Insert, now, k);
    UserPresent(ac, columns, Insert, k);
    assert Writable(columns, columns[k].name, true);
  }

  lemma {:induction false} UserPresent(ac: Context, columns: seq<Column>, op: Operation, k: nat)
    requires Missing(ac, columns, op).None? && ac.policy != "system" && k < |columns|
    ensures NeedsUser(columns[k], op) ==> ac.user.Some?
  {
    if k > 0 { UserPresent(ac, columns[1..], op, k - 1); }
  }

  /** What Update assigns to a column, mark by mark; None leaves the column alone. */
  ghost predicate UpdatedCell(ac: Context, c: Column, fields: Row, now: Cell, v: Option<Cell>) {
    if c.primaryKey || c.version then v == None
    else if c.updatedAt then v == Some(now)
    else if c.updatedBy then ac.user.Some? && v == Some(ac.user)
    else if c.name !in fields then v == None
    else if fields[c.name] != None && fields[c.name] != Some(0) then v == Some(fields[c.name])
    else if c.deletedAt then v == Some(now)
    else if c.createdBy || c.deletedBy || c.scope != Unscoped then v == None
    else v == Some(fields[c.name])
  }

  lemma UpdatedCells(ac: Context, columns: seq<Column>, fields: Row, now: Cell, k: nat)
    requires UniqueNames(columns) && ac.policy != "system" && k < |columns|
    requires Missing(ac, columns, Operation.Update).None?
    ensures UpdatedCell(ac, columns[k], fields, now,
              At(Named(columns, Collected(ac, columns, fields, Operation.Update, now), false), columns[k].name))
  {
    AssignedAt(ac, columns, fields, now, k);
    UserPresent(ac, columns, Operation.Update, k);
  }

  // ---------------------------------------------------------------------- which rows a write names

  /** The row has the model's keys. */
  ghost predicate HasKeys(columns: seq<Column>, fields: Row, row: Row) {
    forall i :: 0 <= i < |columns| && columns[i].primaryKey ==>
      var n := columns[i].name;
      n in fields && fields[n].Some? && n in row && row[n] == fields[n]
  }

  lemma {:induction false} KeysMeanHasKeys(columns: seq<Column>, fields: Row, row: Row)
    requires KeyPredicates(columns, fields).Some?
    ensures Satisfies(row, KeyPredicates(columns, fields).value) <==> HasKeys(columns, fields, row)
  {
    if columns != [] {
      var all := KeyPredicates(columns, fields).value;
      var rest := KeyPredicates(columns[1..], fields).value;
      KeysMeanHasKeys(columns[1..], fields, row);
      assert forall i :: 0 < i < |columns| ==> columns[i] == columns[1..][i - 1];
      assert HasKeys(columns, fields, row) <==> HasKeys(columns[1..], fields, row) && HasKeys([columns[0]], fields, row)
      by {
        assert forall i :: 0 <= i < |columns[1..]| ==> columns[1..][i] == columns[i + 1];
        assert [columns[0]][0] == columns[0];
      }
      assert [columns[0]][0] == columns[0];
      if columns[0].primaryKey {
        assert all[0] == (columns[0].name, fields[columns[0].name]);
        assert forall i :: 0 < i < |all| ==> all[i] == rest[i - 1];
        assert forall i :: 0 <= i < |rest| ==> rest[i] == all[i + 1];
      }
    }
  }

  // ------------------------------------------------------------------------- soft deletion

  /**
   * SoftDelete's SET list gets to the soft-delete column: the column is no key and no version, or nothing else is
   * stamped and the list falls back to it.
   */
  ghost predicate SoftSettable(columns: seq<Column>, k: int, policy: string)
    requires 0 <= k < |columns|
  {
    || (!columns[k].primaryKey && !columns[k].version)
    || forall i :: 0 <= i < |columns| && (columns[i].updatedAt || columns[i].deletedAt) && policy != "system" ==>
         columns[i].primaryKey || columns[i].version
  }

  lemma {:induction false} DeleteWritesNothing(ac: Context, columns: seq<Column>)
    ensures Writes(ac, columns, Delete) == []
  {
    if columns != [] { DeleteWritesNothing(ac, columns[1..]); }
  }

  /** What a soft deletion stamps. */
  lemma DeleteStamps(ac: Context, columns: seq<Column>, now: Cell, k: nat)
    requires UniqueNames(columns) && k < |columns|
    ensures At(Populated(ac, columns, Delete, now), columns[k].name)
            == if ac.policy != "system" && (columns[k].updatedAt || columns[k].deletedAt) then Some(now) else None
  {
    DeleteWritesNothing(ac, columns);
    StampedAt(columns, Delete, now, map[], columns[k].name, k);
  }

  /** A column can be set if it is no key and no version. */
  lemma WritableIff(columns: seq<Column>, k: nat)
    requires UniqueNames(columns) && k < |columns|
    ensures Writable(columns, columns[k].name, false) <==> !columns[k].primaryKey && !columns[k].version
  {
    KeyNames(columns, k);
    forall i | 0 <= i < |columns| && columns[i].name == columns[k].name ensures i == k { }
  }

  lemma NamedIsEmptyIff(ac: Context, columns: seq<Column>, now: Cell, k: nat)
    requires UniqueNames(columns) && k < |columns|
    ensures Named(columns, Populated(ac, columns, Delete, now)[columns[k].name := now], false) == map[] <==>
            && (columns[k].primaryKey || columns[k].version)
            && forall i :: 0 <= i < |columns| && (columns[i].updatedAt || columns[i].deletedAt) && ac.policy != "system"
                 ==> columns[i].primaryKey || columns[i].version
  {
    var values := Populated(ac, columns, Delete, now)[columns[k].name := now];
    var named := Named(columns, values, false);
    forall i | 0 <= i < |columns|
      ensures columns[i].name in named <==>
              && !columns[i].primaryKey && !columns[i].version
              && (i == k || (ac.policy != "system" && (columns[i].updatedAt || columns[i].deletedAt)))
    {
      DeleteStamps(ac, columns, now, i);
      WritableIff(columns, i);
    }
    forall n | n in named ensures exists i :: 0 <= i < |columns| && columns[i].name == n {
      assert Writable(columns, n, false);
    }
    if i :| 0 <= i < |columns| && columns[i].name in named {
      assert named != map[];
    }
  }

  /** What a soft deletion sets: the marked column to the time, exactly if it gets there, and no other key. */
  lemma SoftSets(ac: Context, columns: seq<Column>, now: Cell, k: nat)
    requires UniqueNames(columns) && FirstMarked(columns, k)
    ensures At(SoftSet(columns, columns[k], ac, now), columns[k].name)
            == if SoftSettable(columns, k, ac.policy) then Some(now) else None
    ensures forall i :: 0 <= i < |columns| && i != k && columns[i].primaryKey ==>
              columns[i].name !in SoftSet(columns, columns[k], ac, now)
  {
    NamedIsEmptyIff(ac, columns, now, k);
    WritableIff(columns, k);
    forall i | 0 <= i < |columns| && i != k && columns[i].primaryKey
      ensures columns[i].name !in SoftSet(columns, columns[k], ac, now)
    {
      WritableIff(columns, i);
    }
  }

  /**
   * A successful soft deletion, row by row. A row of the caller's with the model's keys is marked with the time,
   * exactly if the soft-delete column can be set; otherwise that column stays. No other row changes.
   */
  lemma SoftDeleteMarks(ac: Context, columns: seq<Column>, accepts: seq<Row> -> bool, rows: seq<Row>, fields: Row,
                        now: Cell, k: nat, i: nat)
    requires UniqueNames(columns) && FirstMarked(columns, k) && i < |rows|
    requires SoftDeleteOutcome(ac, columns, accepts, rows, fields, now).Success?
    ensures var rows' := SoftDeleteOutcome(ac, columns, accepts, rows, fields, now).value;
            && |rows'| == |rows|
            && (!HasKeys(columns, fields, rows[i]) || !Own(ac, columns, rows[i]) ==> rows'[i] == rows[i])
            && (HasKeys(columns, fields, rows[i]) && Own(ac, columns, rows[i]) ==>
                  At(rows'[i], columns[k].name)
                  == if SoftSettable(columns, k, ac.policy) then Some(now) else At(rows[i], columns[k].name))
  {
    SoftColumnIsFirstMarked(columns);
    KeysMeanHasKeys(columns, fields, rows[i]);
    InScopeMeansOwn(ac, columns, rows[i]);
    SoftSets(ac, columns, now, k);
    assert Holds(rows[i], []);
  }

  /**
   * What was soft-deleted is gone: where the soft-delete column can be set and is no key, no Find of the same caller
   * that leaves deleted rows out returns a row with the model's keys.
   */
  lemma SoftDeletedIsHidden(ac: Context, columns: seq<Column>, accepts: seq<Row> -> bool, rows: seq<Row>, fields: Row,
                            now: Cell, k: nat, where_: seq<Where>)
    requires UniqueNames(columns) && FirstMarked(columns, k) && !columns[k].primaryKey && now.Some?
    requires SoftSettable(columns, k, ac.policy) && ac.policy != "system"
    requires SoftDeleteOutcome(ac, columns, accepts, rows, fields, now).Success?
    ensures var found := FindOutcome(ac, columns, where_, false,
                                     SoftDeleteOutcome(ac, columns, accepts, rows, fields, now).value);
            found.Success? && forall row :: row in found.value ==> !HasKeys(columns, fields, row)
  {
    var rows' := SoftDeleteOutcome(ac, columns, accepts, rows, fields, now).value;
    WriteChecksImplyQueryChecks(ac, columns, Delete);
    assert |rows'| == |rows|;
    forall i | 0 <= i < |rows'| && HasKeys(columns, fields, rows'[i])
      ensures !Own(ac, columns, rows'[i]) || !NotDeleted(columns, rows'[i])
    {
      DeletedRow(ac, columns, accepts, rows, fields, now, k, i);
    }
    FoundMeansShown(ac, columns, where_, rows');
  }

  lemma DeletedRow(ac: Context, columns: seq<Column>, accepts: seq<Row> -> bool, rows: seq<Row>, fields: Row,
                   now: Cell, k: nat, i: nat)
    requires UniqueNames(columns) && FirstMarked(columns, k) && !columns[k].primaryKey && now.Some? && i < |rows|
    requires SoftSettable(columns, k, ac.policy)
    requires SoftDeleteOutcome(ac, columns, accepts, rows, fields, now).Success?
    ensures var row := SoftDeleteOutcome(ac, columns, accepts, rows, fields, now).value[i];
            HasKeys(columns, fields, row) ==> !Own(ac, columns, row) || !NotDeleted(columns, row)
  {
    KeysStay(ac, columns, accepts, rows, fields, now, k, i);
    SoftDeleteMarks(ac, columns, accepts, rows, fields, now, k, i);
  }

  lemma FoundMeansShown(ac: Context, columns: seq<Column>, where_: seq<Where>, rows: seq<Row>)
    requires ac.policy != "system" && Missing(ac, columns, Query).None?
    ensures var found := FindOutcome(ac, columns, where_, false, rows);
            found.Success? && forall row :: row in found.value ==>
              row in rows && Own(ac, columns, row) && NotDeleted(columns, row)
  {
    var keep := row => Shown(ac, columns, where_, false, row);
    VisibleRowsAreKept(ac, columns, where_, false, rows);
    forall row | row in Kept(rows, keep) ensures row in rows && Own(ac, columns, row) && NotDeleted(columns, row) {
      KeptMember(rows, keep, row);
    }
  }

  /** A soft deletion changes no key. */
  lemma KeysStay(ac: Context, columns: seq<Column>, accepts: seq<Row> -> bool, rows: seq<Row>, fields: Row,
                 now: Cell, k: nat, i: nat)
    requires UniqueNames(columns) && FirstMarked(columns, k) && !columns[k].primaryKey && i < |rows|
    requires SoftDeleteOutcome(ac, columns, accepts, rows, fields, now).Success?
    ensures var rows' := SoftDeleteOutcome(ac, columns, accepts, rows, fields, now).value;
            |rows'| == |rows| && (HasKeys(columns, fields, rows'[i]) ==> HasKeys(columns, fields, rows[i]))
  {
    SoftColumnIsFirstMarked(columns);
    SoftSets(ac, columns, now, k);
  }

  lemma {:induction false} KeptMember<T>(s: seq<T>, keep: T -> bool, x: T)
    ensures x in Kept(s, keep) <==> x in s && keep(x)
  {
    if s != [] { KeptMember(s[1..], keep, x); }
  }

  // ------------------------------------------------------------------------- updates and deletion

  /** The rows an update names: the caller's, with the model's keys or meeting the conditions. */
  ghost predicate Updates(ac: Context, columns: seq<Column>, fields: Row, where_: Option<seq<Where>>, row: Row) {
    && Own(ac, columns, row)
    && match where_
       case Some(w) => forall i :: 0 <= i < |w| ==> w[i](row)
       case None => HasKeys(columns, fields, row)
  }

  /** A successful update, row by row and column by column. */
  lemma UpdateAssigns(ac: Context, columns: seq<Column>, accepts: seq<Row> -> bool, rows: seq<Row>, fields: Row,
                      where_: Option<seq<Where>>, now: Cell, i: nat, k: nat)
    requires UniqueNames(columns) && i < |rows| && k < |columns|
    requires UpdateOutcome(ac, columns, accepts, rows, fields, where_, now).Success?
    ensures var rows' := UpdateOutcome(ac, columns, accepts, rows, fields, where_, now).value;
            var n := columns[k].name;
            && |rows'| == |rows| && ac.policy != "system"
            && (!Updates(ac, columns, fields, where_, rows[i]) ==> rows'[i] == rows[i])
            && (Updates(ac, columns, fields, where_, rows[i]) ==>
                  exists v :: UpdatedCell(ac, columns[k], fields, now, v)
                              && At(rows'[i], n) == if v == None then At(rows[i], n) else v)
  {
    var set_ := Named(columns, Collected(ac, columns, fields, Operation.Update, now), false);
    if IsSystem(ac.policy) { SystemPolicyWritesNothing(ac, columns, accepts, rows, map[], fields, where_, now); }
    InScopeMeansOwn(ac, columns, rows[i]);
    if where_.None? { KeysMeanHasKeys(columns, fields, rows[i]); }
    UpdatedCells(ac, columns, fields, now, k);
    assert Satisfies(rows[i], []) && Holds(rows[i], []);
    assert UpdatedCell(ac, columns[k], fields, now, At(set_, columns[k].name));
  }

  /**
   * Update does not leave deletion alone: a deleted_at column that is nothing else takes the time of the update when
   * the model's field is zero. So a row an update names is undeleted afterwards exactly if it was before and the model
   * has no such field; updating a live row through a model that has one deletes it.
   */
  lemma UpdateDeletesIff(ac: Context, columns: seq<Column>, accepts: seq<Row> -> bool, rows: seq<Row>, fields: Row,
                         where_: Option<seq<Where>>, now: Cell, i: nat, k: nat)
    requires UniqueNames(columns) && i < |rows| && FirstMarked(columns, k) && now.Some?
    requires UpdateOutcome(ac, columns, accepts, rows, fields, where_, now).Success?
    requires Updates(ac, columns, fields, where_, rows[i])
    requires var c := columns[k]; c.deletedAt && !c.primaryKey && !c.version && !c.updatedAt && !c.updatedBy
    ensures NotDeleted(columns, UpdateOutcome(ac, columns, accepts, rows, fields, where_, now).value[i]) <==>
            NotDeleted(columns, rows[i]) && columns[k].name !in fields
  {
    UpdateAssigns(ac, columns, accepts, rows, fields, where_, now, i, k);
    NotDeletedAt(columns, k, rows[i]);
    NotDeletedAt(columns, k, UpdateOutcome(ac, columns, accepts, rows, fields, where_, now).value[i]);
  }

  lemma NotDeletedAt(columns: seq<Column>, k: nat, row: Row)
    requires FirstMarked(columns, k)
    ensures NotDeleted(columns, row) <==> At(row, columns[k].name) == None || At(row, columns[k].name) == Some(None)
  {
    forall j | FirstMarked(columns, j) ensures j == k { }
  }
}
