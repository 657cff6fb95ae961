/** Session.update in orm/orm.go on a table with a version column. */
module OptimisticLock {
  import opened Wrappers

  /** The Go integer type of a model's version field. */
  datatype FieldType = FieldType(signed: bool, bits: nat)

  function Pow2(n: nat): (p: nat)
    ensures p > 0
  {
    if n == 0 then 1 else 2 * Pow2(n - 1)
  }

  /** reflect's SetInt and SetUint keep the low bits. */
  function Narrow(t: FieldType, v: nat): int {
    var size := Pow2(t.bits);
    var low := v % size;
    if t.signed && 2 * low >= size then low - size else low
  }

  lemma NarrowAtMost(t: FieldType, v: nat)
    ensures Narrow(t, v) <= v
  {
    var size := Pow2(t.bits);
    LowBits(v, size);
  }

  lemma LowBits(v: nat, size: nat)
    requires size > 0
    ensures 0 <= v % size <= v && (v < size ==> v % size == v) && v % size < size
  {
  }

  const MAX_BIGINT: nat := 0x7fff_ffff_ffff_ffff
  const INITIAL_VERSION := 1

  /** The stored row: its version column and everything else. */
  datatype Stored<D> = Stored(version: nat, data: D)

  /** UPDATE ... SET data, version = version + 1 WHERE version = base; None is a statement error. */
  datatype Outcome = Updated | NoRows | StatementError

  function Execute<D>(row: Stored<D>, base: int, data: D): (Stored<D>, Outcome) {
    if base != row.version then (row, NoRows)
    else if row.version == MAX_BIGINT then (row, StatementError)
    else (Stored(row.version + 1, data), Updated)
  }

  /** A client's model value: the version field as Go holds it, and the other fields. */
  datatype Copy<D> = Copy(version: int, data: D)

  function ReadCopy<D>(row: Stored<D>, t: FieldType): Copy<D> {
    Copy(Narrow(t, row.version), row.data)
  }

  /** update: the guarded statement, then RETURNING refreshes the version field of the model. */
  function UpdateCopy<D>(row: Stored<D>, copy: Copy<D>, t: FieldType): (Stored<D>, Copy<D>, Outcome) {
    var (row', outcome) := Execute(row, copy.version, copy.data);
    (row', if outcome.Updated? then copy.(version := Narrow(t, row'.version)) else copy, outcome)
  }

  datatype Error = OptimisticLockFailed | RuntimeQuery

  class TableRow<D> {
    var row: Stored<D>

    constructor (data: D)
      ensures row == Stored(INITIAL_VERSION, data)
    {
      row := Stored(INITIAL_VERSION, data);
    }

    /** The UPDATE statement with RETURNING: number of rows, and the version column of the returned one. */
    method ExecReturning(base: int, data: D) returns (count: int, version: nat, err: bool)
      modifies this
      ensures var (r, outcome) := Execute(old(row), base, data);
              && row == r && (err <==> outcome.StatementError?) && (!err ==> count == if outcome.Updated? then 1 else 0)
              && (outcome.Updated? ==> version == r.version)
    {
      count, version, err := 0, 0, false;
      if row.version == base {
        if row.version == MAX_BIGINT { return -1, 0, true; }
        row := Stored(row.version + 1, data);
        count, version := 1, row.version;
      }
    }
  }

  class Model<D> {
    const fieldType: FieldType
    var version: int
    var data: D

    constructor (fieldType: FieldType, version: int, data: D)
      ensures this.fieldType == fieldType && this.version == version && this.data == data
    {
      this.fieldType, this.version, this.data := fieldType, version, data;
    }

    function View(): Copy<D> reads this { Copy(version, data) }

    method Load(table: TableRow<D>)
      modifies this
      ensures View() == ReadCopy(table.row, fieldType)
    {
      version, data := Narrow(fieldType, table.row.version), table.row.data;
    }

    method Update(table: TableRow<D>) returns (err: Option<Error>)
      modifies this, table
      ensures var (r, copy, outcome) := UpdateCopy(old(table.row), old(View()), fieldType);
              && table.row == r && View() == copy
              && err == match outcome
                        case Updated => None
                        case NoRows => Some(OptimisticLockFailed)
                        case StatementError => Some(RuntimeQuery)
      ensures err == None ==> View() == ReadCopy(table.row, fieldType) && data == old(data)
    {
      var current := version;
      var rowsAffected, returned, failed := table.ExecReturning(current, data);
      if failed { return Some(RuntimeQuery); }
      if rowsAffected > 0 {
        version := Narrow(fieldType, returned);
      }
      if rowsAffected == 0 { return Some(OptimisticLockFailed); }
      err := None;
    }
  }

  // ------------------------------------------------------------- any number of clients

  type Edit<!D> = D -> D

  datatype Event<!D> = Load(client: nat) | Save(client: nat, edit: Edit<D>)

  /** A successful update: the stored version it replaced and the edit it applied. */
  datatype Saved<!D> = Saved(base: nat, edit: Edit<D>)

  datatype World<!D> = World(row: Stored<D>, copies: map<nat, Copy<D>>, log: seq<Saved<D>>)

  /** One client acts: it reloads the row, or edits its copy and calls Update. */
  function Step<D>(w: World<D>, ev: Event<D>, types: nat -> FieldType): World<D> {
    match ev
    case Load(i) => w.(copies := w.copies[i := ReadCopy(w.row, types(i))])
    case Save(i, edit) =>
      if i !in w.copies then w
      else
        var edited := w.copies[i].(data := edit(w.copies[i].data));
        var (row, copy, outcome) := UpdateCopy(w.row, edited, types(i));
        World(row, w.copies[i := copy], if outcome.Updated? then w.log + [Saved(w.row.version, edit)] else w.log)
  }

  function Run<D>(w: World<D>, events: seq<Event<D>>, types: nat -> FieldType): World<D>
    decreases |events|
  {
    if events == [] then w else Run(Step(w, events[0], types), events[1..], types)
  }

  function Start<D>(data: D): World<D> {
    World(Stored(INITIAL_VERSION, data), map[], [])
  }

  /** Applying the logged edits one after the other, as if the clients had taken turns. */
  function Serial<D>(data: D, log: seq<Saved<D>>): D {
    if log == [] then data else log[|log| - 1].edit(Serial(data, log[..|log| - 1]))
  }

  /** A copy that could pass the version check holds exactly what is stored. */
  predicate CopyIsHonest<D(==)>(copy: Copy<D>, row: Stored<D>) {
    copy.version <= row.version && (copy.version == row.version && row.version < MAX_BIGINT ==> copy.data == row.data)
  }

  ghost predicate Inv<D>(w: World<D>, data: D) {
    && w.row.version == 1 + |w.log| <= MAX_BIGINT
    && (forall k :: 0 <= k < |w.log| ==> w.log[k].base == k + 1)
    && w.row.data == Serial(data, w.log)
    && forall i :: i in w.copies ==> CopyIsHonest(w.copies[i], w.row)
  }

  lemma StepKeepsInv<D>(w: World<D>, ev: Event<D>, types: nat -> FieldType, data: D)
    requires Inv(w, data)
    ensures Inv(Step(w, ev, types), data)
  {
    match ev {
      case Load(i) => NarrowAtMost(types(i), w.row.version);
      case Save(i, edit) =>
        if i in w.copies {
          var w' := Step(w, ev, types);
          NarrowAtMost(types(i), w'.row.version);
          if w'.log != w.log {
            assert w'.log[..|w'.log| - 1] == w.log;
          }
        }
    }
  }

  lemma {:induction false} RunKeepsInv<D>(w: World<D>, events: seq<Event<D>>, types: nat -> FieldType, data: D)
    requires Inv(w, data)
    ensures Inv(Run(w, events, types), data)
    decreases |events|
  {
    if events != [] {
      StepKeepsInv(w, events[0], types, data);
      RunKeepsInv(Step(w, events[0], types), events[1..], types, data);
    }
  }

  /**
   * No update is lost. Whatever the interleaving: the stored version is one plus the number of
   * successful updates, the k-th success replaced version k, so no two share a base, and the stored
   * data is what the successful edits give when applied in turn.
   */
  lemma NoLostUpdate<D>(data: D, events: seq<Event<D>>, types: nat -> FieldType)
    ensures var w := Run(Start(data), events, types);
            && w.row.version == 1 + |w.log|
            && (forall k :: 0 <= k < |w.log| ==> w.log[k].base == k + 1)
            && (forall j, k :: 0 <= j < k < |w.log| ==> w.log[j].base != w.log[k].base)
            && w.row.data == Serial(data, w.log)
  {
    RunKeepsInv(Start(data), events, types, data);
  }

  /**
   * An update right after a load succeeds exactly when the stored version fits the model's field:
   * an int8 field stops matching at 128.
   */
  lemma FreshUpdateSucceedsIff<D>(w: World<D>, i: nat, edit: Edit<D>, types: nat -> FieldType)
    requires w.row.version <= MAX_BIGINT
    ensures var w' := Step(Step(w, Load(i), types), Save(i, edit), types);
            w'.log != w.log <==> Narrow(types(i), w.row.version) == w.row.version && w.row.version < MAX_BIGINT
  {
    var w1 := Step(w, Load(i), types);
    var w2 := Step(w1, Save(i, edit), types);
    assert w2.log == w.log || |w2.log| == |w.log| + 1;
  }

  /** Which versions a field can hold. */
  lemma FitsIff(t: FieldType, v: nat)
    requires t.bits > 0
    ensures Narrow(t, v) == v <==> v < (if t.signed then Pow2(t.bits - 1) else Pow2(t.bits))
  {
    var size := Pow2(t.bits);
    LowBits(v, size);
  }

  /** The first version that is out of reach of a field. */
  function Limit(t: FieldType): nat
    requires t.bits > 0
  {
    if t.signed then Pow2(t.bits - 1) else Pow2(t.bits)
  }

  /**
   * A client whose save went through holds what is stored: its own edit's data, and the version that RETURNING reports,
   * which is the stored one exactly if that fits the field. A client whose save failed keeps its version.
   */
  lemma SavedCopyIsStored<D>(w: World<D>, i: nat, edit: Edit<D>, types: nat -> FieldType)
    requires i in w.copies && types(i).bits > 0
    ensures var w' := Step(w, Save(i, edit), types);
            && i in w'.copies && w'.copies[i].data == edit(w.copies[i].data)
            && (w'.log == w.log ==> w'.row == w.row && w'.copies[i].version == w.copies[i].version)
            && (w'.log != w.log ==>
                  && w'.row.data == w'.copies[i].data && w'.row.version == w.row.version + 1
                  && (w'.copies[i].version == w'.row.version <==> w'.row.version < Limit(types(i))))
  {
    var w' := Step(w, Save(i, edit), types);
    assert w'.log == w.log || |w'.log| == |w.log| + 1;
    FitsIff(types(i), w'.row.version);
  }

  /** One client saves again and again. */
  function Saves<D>(i: nat, edits: seq<Edit<D>>): seq<Event<D>> {
    if edits == [] then [] else [Save(i, edits[0])] + Saves(i, edits[1..])
  }

  /** How many saves can still go through from version v: the field has to hold it, and bigint the next one. */
  function Room(t: FieldType, v: nat): nat
    requires t.bits > 0
  {
    var cap := if Limit(t) < MAX_BIGINT then Limit(t) else MAX_BIGINT;
    if v < cap then cap - v else 0
  }

  /** The log of saves in a row. */
  function Logged<D>(v: nat, edits: seq<Edit<D>>): seq<Saved<D>>
    decreases |edits|
  {
    if edits == [] then [] else [Saved(v, edits[0])] + Logged(v + 1, edits[1..])
  }

  function InTurn<D>(data: D, edits: seq<Edit<D>>): D {
    if edits == [] then data else InTurn(edits[0](data), edits[1..])
  }

  /** Without room nothing goes through any more: the row and the log stay as they are. */
  lemma {:induction false} OutOfRoom<D>(w: World<D>, i: nat, edits: seq<Edit<D>>, types: nat -> FieldType)
    requires i in w.copies && types(i).bits > 0 && w.row.version <= MAX_BIGINT
    requires w.copies[i].version == Narrow(types(i), w.row.version) && Room(types(i), w.row.version) == 0
    ensures Run(w, Saves(i, edits), types).row == w.row && Run(w, Saves(i, edits), types).log == w.log
    decreases |edits|
  {
    if edits != [] {
      FitsIff(types(i), w.row.version);
      assert Saves(i, edits)[1..] == Saves(i, edits[1..]);
      OutOfRoom(Step(w, Save(i, edits[0]), types), i, edits[1..], types);
    }
  }

  /** With room a save goes through, and leaves the client with what is stored and one less to go. */
  lemma SaveGoesThrough<D>(w: World<D>, i: nat, edit: Edit<D>, types: nat -> FieldType)
    requires i in w.copies && types(i).bits > 0 && w.copies[i] == ReadCopy(w.row, types(i))
    requires Room(types(i), w.row.version) > 0
    ensures var w' := Step(w, Save(i, edit), types);
            && w'.row == Stored(w.row.version + 1, edit(w.row.data)) && i in w'.copies
            && w'.copies[i] == ReadCopy(w'.row, types(i)) && w'.log == w.log + [Saved(w.row.version, edit)]
            && Room(types(i), w'.row.version) == Room(types(i), w.row.version) - 1
  {
    FitsIff(types(i), w.row.version);
  }

  /** While there is room every save goes through, on the version the save before it left. */
  lemma {:induction false} SavesGoThrough<D>(w: World<D>, i: nat, edits: seq<Edit<D>>, n: nat, types: nat -> FieldType)
    requires i in w.copies && types(i).bits > 0 && w.row.version <= MAX_BIGINT
    requires w.copies[i] == ReadCopy(w.row, types(i))
    requires n <= |edits| && n <= Room(types(i), w.row.version)
    requires n < |edits| ==> n == Room(types(i), w.row.version)
    ensures var w' := Run(w, Saves(i, edits), types);
            && w'.log == w.log + Logged(w.row.version, edits[..n])
            && w'.row == Stored(w.row.version + n, InTurn(w.row.data, edits[..n]))
    decreases |edits|
  {
    if n == 0 {
      assert edits[..0] == [];
      if edits != [] { OutOfRoom(w, i, edits, types); }
    } else {
      var v, first, rest := w.row.version, edits[0], edits[1..];
      SaveGoesThrough(w, i, first, types);
      var next := Step(w, Save(i, first), types);
      assert Saves(i, edits)[0] == Save(i, first) && Saves(i, edits)[1..] == Saves(i, rest);
      assert edits[..n] == [first] + rest[..n - 1];
      SavesGoThrough(next, i, rest, n - 1, types);
      LoggedFirst(v, first, rest[..n - 1], w.log);
    }
  }

  lemma LoggedFirst<D>(v: nat, first: Edit<D>, rest: seq<Edit<D>>, log: seq<Saved<D>>)
    ensures log + Logged(v, [first] + rest) == log + [Saved(v, first)] + Logged(v + 1, rest)
  {
    assert ([first] + rest)[1..] == rest;
  }

  /**
   * A client that loads and then saves again and again, nobody else in between: exactly as many of its saves go through
   * as there is room for, each on the version the one before it left, and the stored data are those edits applied in
   * turn to what was loaded. So all of them do if and only if the last one's base still fits the field and bigint.
   */
  lemma SavesInARow<D>(w: World<D>, i: nat, edits: seq<Edit<D>>, types: nat -> FieldType)
    requires types(i).bits > 0 && w.row.version <= MAX_BIGINT
    ensures var room := Room(types(i), w.row.version);
            var n := if |edits| < room then |edits| else room;
            var w' := Run(w, [Load(i)] + Saves(i, edits), types);
            && w'.log == w.log + Logged(w.row.version, edits[..n])
            && w'.row == Stored(w.row.version + n, InTurn(w.row.data, edits[..n]))
            && (n == |edits| <==> (edits == [] || w.row.version + |edits| - 1 < Limit(types(i)))
                                  && w.row.version + |edits| <= MAX_BIGINT)
  {
    var loaded := Step(w, Load(i), types);
    assert ([Load(i)] + Saves(i, edits))[1..] == Saves(i, edits);
    var room := Room(types(i), w.row.version);
    SavesGoThrough(loaded, i, edits, if |edits| < room then |edits| else room, types);
  }

  /** Two clients that loaded the same version: only the first to save succeeds. */
  lemma SecondSaverConflicts<D>(w: World<D>, i: nat, j: nat, f: Edit<D>, g: Edit<D>, types: nat -> FieldType, data: D)
    requires Inv(w, data) && i != j
    ensures var loaded := Step(Step(w, Load(i), types), Load(j), types);
            var first := Step(loaded, Save(i, f), types);
            first.log != w.log ==> Step(first, Save(j, g), types).row == first.row
  {
    NarrowAtMost(types(j), w.row.version);
  }
}
