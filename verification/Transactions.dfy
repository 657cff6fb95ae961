/**
 * Nested transactions over one PostgreSQL connection: savepoints, handles with a
 * `closed` flag, and the recursive "a failed block restores its entry state"
 * semantics they stand for.
 */
module Transactions {
  import opened Text
  import opened Wrappers

  // ---------------------------------------------------------------- the server

  type Rows = map<string, int>

  /** Statements a callback may send; Insert violates uniqueness when the key exists. */
  datatype Stmt = Put(key: string, value: int) | Insert(key: string, value: int) | Remove(key: string) | Malformed

  /** None: the server rejects the statement. */
  function Effect(stmt: Stmt, rows: Rows): Option<Rows> {
    match stmt
    case Put(k, v) => Some(rows[k := v])
    case Insert(k, v) => if k in rows then None else Some(rows[k := v])
    case Remove(k) => Some(rows - {k})
    case Malformed => None
  }

  datatype Savepoint = Savepoint(name: string, rows: Rows)

  /** One open transaction on the server: working rows, savepoint stack, and whether it is in the failed state. */
  datatype Session = Session(rows: Rows, stack: seq<Savepoint>, aborted: bool, done: bool)

  datatype Command = Statement(stmt: Stmt) | SetSavepoint(name: string) | Release(name: string) |
      RollbackTo(name: string)
                   | CommitTx | RollbackTx

  predicate Finishing(c: Command) {
    c.Release? || c.RollbackTo? || c.CommitTx? || c.RollbackTx?
  }

  /** The most recent savepoint of that name, or -1. */
  function LastNamed(stack: seq<Savepoint>, name: string): (i: int)
    ensures -1 <= i < |stack|
  {
    if stack == [] then -1
    else if stack[|stack| - 1].name == name then |stack| - 1
    else LastNamed(stack[..|stack| - 1], name)
  }

  /** PostgreSQL's answer to a command inside a transaction: the new state and whether it succeeded. */
  function Serve(s: Session, c: Command): (Session, bool) {
    if s.done then (s, false)
    else match c
      case Statement(stmt) =>
        if s.aborted then (s, false)
        else (match Effect(stmt, s.rows)
              case None => (s.(aborted := true), false)
              case Some(rows) => (s.(rows := rows), true))
      case SetSavepoint(name) =>
        if s.aborted then (s, false) else (s.(stack := s.stack + [Savepoint(name, s.rows)]), true)
      case Release(name) =>
        var i := LastNamed(s.stack, name);
        if s.aborted || i < 0 then (s.(aborted := true), false) else (s.(stack := s.stack[..i]), true)
      case RollbackTo(name) =>
        var i := LastNamed(s.stack, name);
        if i < 0 then (s.(aborted := true), false)
        else (s.(rows := s.stack[i].rows, stack := s.stack[..i + 1], aborted := false), true)
      case CommitTx => (s.(done := true), !s.aborted)
      case RollbackTx => (s.(done := true), true)
  }

  lemma {:induction false} LastNamedUnder(stack: seq<Savepoint>, at: Savepoint, above: seq<Savepoint>)
    requires forall i :: 0 <= i < |above| ==> above[i].name != at.name
    ensures LastNamed(stack + [at] + above, at.name) == |stack|
    decreases |above|
  {
    var all := stack + [at] + above;
    if above == [] {
      assert all == stack + [at];
    } else {
      assert all[..|all| - 1] == stack + [at] + above[..|above| - 1];
      LastNamedUnder(stack, at, above[..|above| - 1]);
    }
  }

  /**
   * What follows a SAVEPOINT, in any state and with any savepoints of other names above it: ROLLBACK TO brings back
   * exactly the session behind the SAVEPOINT, savepoint included, so it can be repeated, and it ends the failed state.
   * RELEASE keeps the rows and forgets the savepoint, but is refused in the failed state.
   */
  lemma SavepointRoundTrip(s: Session, name: string, later: Session, above: seq<Savepoint>)
    requires !s.done && !s.aborted && !later.done && later.stack == Serve(s, SetSavepoint(name)).0.stack + above
    requires forall i :: 0 <= i < |above| ==> above[i].name != name
    ensures Serve(s, SetSavepoint(name)).1 && Serve(later, RollbackTo(name)) == (Serve(s, SetSavepoint(name)).0, true)
    ensures !later.aborted ==> Serve(later, Release(name)) == (later.(stack := s.stack), true)
    ensures later.aborted ==> Serve(later, Release(name)) == (later, false)
  {
    LastNamedUnder(s.stack, Savepoint(name, s.rows), above);
    assert later.stack[..|s.stack|] == s.stack && later.stack[..|s.stack| + 1] == s.stack + [Savepoint(name, s.rows)];
  }

  class Server {
    var committed: Rows
    const reachable: bool // whether the pool can get a connection

    constructor (rows: Rows, reachable: bool)
      ensures committed == rows && this.reachable == reachable
    {
      committed, this.reachable := rows, reachable;
    }
  }

  /** database/sql's Tx. */
  class SqlTx {
    var session: Session

    constructor (rows: Rows)
      ensures session == Session(rows, [], false, false)
    {
      session := Session(rows, [], false, false);
    }

    method Send(c: Command) returns (ok: bool)
      modifies this
      ensures (session, ok) == Serve(old(session), c)
    {
      var (s, r) := Serve(session, c);
      session, ok := s, r;
    }
  }

  // ------------------------------------------------------------- savepoint names

  const UINT64 := 0x1_0000_0000_0000_0000

  function SavepointName(k: nat): string {
    "sp_" + Itoa(k % UINT64)
  }

  /** Names drawn fewer than 2^64 steps apart are different. */
  lemma SavepointNamesDiffer(j: nat, k: nat)
    requires j < k < j + UINT64
    ensures SavepointName(j) != SavepointName(k)
  {
    if SavepointName(j) == SavepointName(k) {
      assert SavepointName(j)[3..] == Itoa(j % UINT64) && SavepointName(k)[3..] == Itoa(k % UINT64);
      ItoaInjective(j % UINT64, k % UINT64);
    }
  }

  /** The process-wide atomic counter. */
  class Counter {
    var savepointSeq: nat
    ghost var issued: nat

    ghost predicate Valid() reads this {
      savepointSeq == issued % UINT64
    }

    constructor ()
      ensures Valid() && issued == 0
    {
      savepointSeq, issued := 0, 0;
    }

    method NextSavepointName() returns (name: string)
      requires Valid()
      modifies this
      ensures Valid() && issued == old(issued) + 1 && name == SavepointName(issued)
    {
      savepointSeq := (savepointSeq + 1) % UINT64;
      issued := issued + 1;
      name := "sp_" + Itoa(savepointSeq);
    }
  }

  // -------------------------------------------------------------------- handles

  /** Joined is errors.Join; AtItem is a batch's error with the index of the failing item in front. */
  datatype Err = TransactionClosed | RuntimeQuery | CommitFailed | RollbackFailed | Configuration | Callback |
      Joined(first: Err, second: Err) | AtItem(index: nat, cause: Err)

  datatype TransactionState = TransactionState(savepoint: string, closed: bool)

  datatype Call = CallBegin(name: string) | CallCommit | CallRollback | CallExec(stmt: Stmt)

  /** What one call on a transaction handle does: new handle state, what reached the connection, the error. */
  datatype Reply = Reply(state: TransactionState, sent: Option<Command>, session: Session, err: Option<Err>)

  function FailWith(ok: bool, e: Err): Option<Err> {
    if ok then None else Some(e)
  }

  function Respond(t: TransactionState, c: Call, s: Session): Reply {
    if t.closed then Reply(t, None, s, Some(TransactionClosed))
    else match c
      case CallBegin(name) =>
        var (s', ok) := Serve(s, SetSavepoint(name));
        Reply(t, Some(SetSavepoint(name)), s', FailWith(ok, RuntimeQuery))
      case CallExec(stmt) =>
        var (s', ok) := Serve(s, Statement(stmt));
        Reply(t, Some(Statement(stmt)), s', FailWith(ok, RuntimeQuery))
      case CallCommit =>
        var cmd := if t.savepoint != "" then Release(t.savepoint) else CommitTx;
        var (s', ok) := Serve(s, cmd);
        Reply(t.(closed := true), Some(cmd), s', FailWith(ok, CommitFailed))
      case CallRollback =>
        var cmd := if t.savepoint != "" then RollbackTo(t.savepoint) else RollbackTx;
        var (s', ok) := Serve(s, cmd);
        Reply(t.(closed := true), Some(cmd), s', FailWith(ok, RollbackFailed))
  }

  /**
   * The replies to a call sequence on one handle. Before each call the session
   * is whatever other users of the connection have made of it.
   */
  function Replies(t: TransactionState, calls: seq<(Call, Session)>): (r: seq<Reply>)
    ensures |r| == |calls|
    decreases |calls|
  {
    if calls == [] then []
    else
      var first := Respond(t, calls[0].0, calls[0].1);
      [first] + Replies(first.state, calls[1..])
  }

  lemma {:induction false} ClosedStaysSilent(t: TransactionState, calls: seq<(Call, Session)>, j: nat)
    requires t.closed && j < |calls|
    ensures Replies(t, calls)[j] == Reply(t, None, calls[j].1, Some(TransactionClosed))
    decreases j
  {
    if j > 0 { ClosedStaysSilent(t, calls[1..], j - 1); }
  }

  /**
   * At most one commit or rollback reaches the connection: once a call sent one, whether or not
   * the server accepted it, every later call of any kind sends nothing, leaves the session
   * alone and fails with TransactionClosed.
   */
  lemma {:induction false} FinishesAtMostOnce(t: TransactionState, calls: seq<(Call, Session)>, i: nat, j: nat)
    requires i < j < |calls|
    requires Replies(t, calls)[i].sent.Some? && Finishing(Replies(t, calls)[i].sent.value)
    ensures Replies(t, calls)[j].sent == None
    ensures Replies(t, calls)[j].session == calls[j].1
    ensures Replies(t, calls)[j].err == Some(TransactionClosed)
    decreases i
  {
    var next := Respond(t, calls[0].0, calls[0].1).state;
    if i == 0 {
      ClosedStaysSilent(next, calls[1..], j - 1);
    } else {
      FinishesAtMostOnce(next, calls[1..], i - 1, j - 1);
    }
  }

  // ------------------------------------------------------------- programs of blocks

  /** A callback step; `ignore` says the callback goes on when the step returns an error. */
  datatype Step = Exec(stmt: Stmt, ignore: bool) | Nest(body: Block, ignore: bool)

  /** A callback: its steps, and whether it returns an error of its own at the end. */
  datatype Block = Block(steps: seq<Step>, fails: bool)

  /** How many nested blocks a program holds. */
  function Nests(steps: seq<Step>): nat
    decreases steps, 0
  {
    if steps == [] then 0 else StepNests(steps[0]) + Nests(steps[1..])
  }

  function StepNests(step: Step): nat
    decreases step, 0
  {
    match step case Exec(_, _) => 0 case Nest(body, _) => 1 + BlockNests(body)
  }

  function BlockNests(b: Block): nat
    decreases b, 1
  {
    Nests(b.steps)
  }

  // ------------------------------------------- reference semantics: no stack, no names, no handles

  /** The rows a transaction works on, or the failed state in which the server refuses everything. */
  datatype Conn = Live(rows: Rows) | Aborted

  /** Runs steps until one fails and is not ignored; the flag says none did. */
  function RunSteps(steps: seq<Step>, c: Conn): (Conn, bool)
    decreases steps, 0
  {
    if steps == [] then (c, true)
    else
      var (c', ok) := RunStep(steps[0], c);
      if ok || steps[0].ignore then RunSteps(steps[1..], c') else (c', false)
  }

  function RunStep(step: Step, c: Conn): (Conn, bool)
    decreases step, 0
  {
    match step
    case Exec(stmt, _) =>
      if c.Aborted? then (c, false)
      else (match Effect(stmt, c.rows) case None => (Aborted, false) case Some(rows) => (Live(rows), true))
    case Nest(body, _) => RunNested(body, c)
  }

  /** A nested block: a failing callback restores the entry state. */
  function RunNested(b: Block, c: Conn): (Conn, bool)
    decreases b, 1
  {
    if c.Aborted? then (c, false)
    else
      var (c', ok) := RunSteps(b.steps, c);
      Settle(c, c', ok && !b.fails)
  }

  /** How a nested transaction ends: a failed callback restores, a commit needs a live transaction. */
  function Settle(entry: Conn, end: Conn, ok: bool): (Conn, bool) {
    if !ok then (entry, false) else (end, end.Live?)
  }

  /** A top-level block on the committed rows. */
  function RunTop(b: Block, committed: Rows): (Rows, bool) {
    var (c, ok) := RunSteps(b.steps, Live(committed));
    if ok && !b.fails && c.Live? then (c.rows, true) else (committed, false)
  }

  // ------------------------------------------------- reference semantics: which error is returned

  /** The error steps stop with: the first one that is not ignored. */
  function StepsErr(steps: seq<Step>, c: Conn): Option<Err>
    decreases steps, 0
  {
    if steps == [] then None
    else
      var err := StepErr(steps[0], c);
      if err == None || steps[0].ignore then StepsErr(steps[1..], RunStep(steps[0], c).0) else err
  }

  /** A refused statement is a query error; a nested block's error is passed on as it is. */
  function StepErr(step: Step, c: Conn): Option<Err>
    decreases step, 0
  {
    match step
    case Exec(stmt, _) =>
      if c.Live? && Effect(stmt, c.rows).Some? then None else Some(RuntimeQuery)
    case Nest(body, _) => BlockErr(body, c)
  }

  /** What a callback returns: the error of the step it stopped at, or its own. */
  function CallbackErr(b: Block, c: Conn): Option<Err>
    decreases b, 1
  {
    var err := StepsErr(b.steps, c);
    if err == None && b.fails then Some(Callback) else err
  }

  /** What Transaction returns for a block: no SAVEPOINT in the failed state, and otherwise the end's verdict. */
  function BlockErr(b: Block, c: Conn): Option<Err>
    decreases b, 2
  {
    if c.Aborted? then Some(RuntimeQuery) else Verdict(CallbackErr(b, c), RunSteps(b.steps, c).0)
  }

  /** A callback's error stands; without one only a failed transaction's commit is refused. */
  function Verdict(err: Option<Err>, end: Conn): Option<Err> {
    if err == None && end.Aborted? then Some(CommitFailed) else err
  }

  /** The errors and the outcomes tell the same story. */
  lemma {:induction false} BlockErrIffFails(b: Block, c: Conn)
    ensures CallbackErr(b, c) == None <==> RunSteps(b.steps, c).1 && !b.fails
    ensures BlockErr(b, c) == None <==> RunNested(b, c).1
    decreases b, 1
  {
    StepsErrIffFails(b.steps, c);
  }

  lemma {:induction false} StepsErrIffFails(steps: seq<Step>, c: Conn)
    ensures StepsErr(steps, c) == None <==> RunSteps(steps, c).1
    decreases steps, 0
  {
    if steps != [] {
      StepErrIffFails(steps[0], c);
      StepsErrIffFails(steps[1..], RunStep(steps[0], c).0);
    }
  }

  lemma {:induction false} StepErrIffFails(step: Step, c: Conn)
    ensures StepErr(step, c) == None <==> RunStep(step, c).1
    decreases step, 0
  {
    if step.Nest? { BlockErrIffFails(step.body, c); }
  }

  // --------------------------------------------- the plain reading: failed blocks vanish

  function PlainSteps(steps: seq<Step>, rows: Rows): (Rows, bool)
    decreases steps, 0
  {
    if steps == [] then (rows, true)
    else
      var (rows', ok) := PlainStep(steps[0], rows);
      if ok || steps[0].ignore then PlainSteps(steps[1..], rows') else (rows', false)
  }

  function PlainStep(step: Step, rows: Rows): (Rows, bool)
    decreases step, 0
  {
    match step
    case Exec(stmt, _) => (match Effect(stmt, rows) case None => (rows, false) case Some(r) => (r, true))
    case Nest(body, _) => PlainBlock(body, rows)
  }

  /** A block that succeeds keeps its writes, a block that fails leaves nothing behind. */
  function PlainBlock(b: Block, rows: Rows): (Rows, bool)
    decreases b, 1
  {
    var (rows', ok) := PlainSteps(b.steps, rows);
    if ok && !b.fails then (rows', true) else (rows, false)
  }

  /** No callback goes on after a rejected statement. Errors of nested blocks may be ignored freely. */
  predicate Disciplined(steps: seq<Step>)
    decreases steps, 0
  {
    forall step :: step in steps ==> DisciplinedStep(step)
  }

  predicate DisciplinedStep(step: Step)
    decreases step, 0
  {
    match step case Exec(_, ignore) => !ignore case Nest(body, _) => DisciplinedBlock(body)
  }

  predicate DisciplinedBlock(b: Block)
    decreases b, 1
  {
    Disciplined(b.steps)
  }

  predicate AllIgnored(steps: seq<Step>) {
    forall i :: 0 <= i < |steps| ==> steps[i].ignore
  }

  lemma AllIgnoredSplit(steps: seq<Step>)
    requires steps != []
    ensures AllIgnored(steps) <==> steps[0].ignore && AllIgnored(steps[1..])
  {
    assert forall i :: 0 < i < |steps| ==> steps[i] == steps[1..][i - 1];
  }

  lemma {:induction false} AbortedGoesNowhere(steps: seq<Step>)
    ensures RunSteps(steps, Aborted) == (Aborted, AllIgnored(steps))
  {
    if steps != [] {
      assert RunStep(steps[0], Aborted) == (Aborted, false);
      AllIgnoredSplit(steps);
      AbortedGoesNowhere(steps[1..]);
    }
  }

  // ------------------------------------------------- when exactly the plain reading is true

  /** The plain run of these steps comes to a statement of their own that is rejected, and ignores that. */
  predicate GoesOn(steps: seq<Step>, rows: Rows)
    decreases steps, 0
  {
    steps != [] &&
    var (rows', ok) := PlainStep(steps[0], rows);
    (steps[0].Exec? && !ok && steps[0].ignore) || ((ok || steps[0].ignore) && GoesOn(steps[1..], rows'))
  }

  /**
   * A callback that goes on after a rejected statement reports an error later, and so do all the blocks it comes to.
   */
  predicate Honest(b: Block, rows: Rows)
    decreases b, 1
  {
    (GoesOn(b.steps, rows) ==> !PlainBlock(b, rows).1) && HonestSteps(b.steps, rows)
  }

  predicate HonestSteps(steps: seq<Step>, rows: Rows)
    decreases steps, 0
  {
    steps == [] ||
    var (rows', ok) := PlainStep(steps[0], rows);
    HonestStep(steps[0], rows) && (ok || steps[0].ignore ==> HonestSteps(steps[1..], rows'))
  }

  predicate HonestStep(step: Step, rows: Rows)
    decreases step, 0
  {
    match step case Exec(_, _) => true case Nest(body, _) => Honest(body, rows)
  }

  /** The block does what the plain reading says. */
  predicate Agrees(b: Block, rows: Rows) {
    RunNested(b, Live(rows)) == (Live(PlainBlock(b, rows).0), PlainBlock(b, rows).1)
  }

  /** The block and every block its plain run comes to do what the plain reading says. */
  predicate PlainlyRead(b: Block, rows: Rows)
    decreases b, 1
  {
    Agrees(b, rows) && PlainlyReadSteps(b.steps, rows)
  }

  predicate PlainlyReadSteps(steps: seq<Step>, rows: Rows)
    decreases steps, 0
  {
    steps == [] ||
    var (rows', ok) := PlainStep(steps[0], rows);
    PlainlyReadStep(steps[0], rows) && (ok || steps[0].ignore ==> PlainlyReadSteps(steps[1..], rows'))
  }

  predicate PlainlyReadStep(step: Step, rows: Rows)
    decreases step, 0
  {
    match step case Exec(_, _) => true case Nest(body, _) => PlainlyRead(body, rows)
  }

  lemma {:induction false} IgnoredNeverFails(steps: seq<Step>, rows: Rows)
    requires AllIgnored(steps)
    ensures PlainSteps(steps, rows).1
    decreases |steps|
  {
    if steps != [] {
      AllIgnoredSplit(steps);
      IgnoredNeverFails(steps[1..], PlainStep(steps[0], rows).0);
    }
  }

  /**
   * Where the nested blocks agree, both readings go side by side up to the first statement that is rejected and
   * ignored.
   */
  lemma {:induction false} SideBySide(steps: seq<Step>, rows: Rows)
    requires PlainlyReadSteps(steps, rows)
    ensures !GoesOn(steps, rows) ==> RunSteps(steps, Live(rows)).1 == PlainSteps(steps, rows).1
    ensures !GoesOn(steps, rows) && PlainSteps(steps, rows).1 ==>
            RunSteps(steps, Live(rows)).0 == Live(PlainSteps(steps, rows).0)
    ensures GoesOn(steps, rows) ==> RunSteps(steps, Live(rows)).0 == Aborted
    ensures GoesOn(steps, rows) && !PlainSteps(steps, rows).1 ==> !RunSteps(steps, Live(rows)).1
    decreases |steps|
  {
    if steps != [] {
      var (rows', ok) := PlainStep(steps[0], rows);
      var (c, _) := RunStep(steps[0], Live(rows));
      assert PlainlyReadStep(steps[0], rows);
      if steps[0].Nest? { assert PlainlyRead(steps[0].body, rows); }
      if c.Aborted? {
        AbortedGoesNowhere(steps[1..]);
        if AllIgnored(steps[1..]) { IgnoredNeverFails(steps[1..], rows'); }
      } else if ok || steps[0].ignore {
        SideBySide(steps[1..], rows');
      }
    }
  }

  /**
   * Over blocks that agree, a block agrees exactly if it does not both go on after a rejected statement and return nil.
   */
  lemma AgreesIff(b: Block, rows: Rows)
    requires PlainlyReadSteps(b.steps, rows)
    ensures Agrees(b, rows) <==> !GoesOn(b.steps, rows) || !PlainBlock(b, rows).1
    ensures RunTop(b, rows) == PlainBlock(b, rows) <==> Agrees(b, rows)
  {
    SideBySide(b.steps, rows);
  }

  /**
   * The plain reading is true of a block and of all blocks it comes to exactly if none of them succeeds after going on
   * past a rejected statement of its own.
   */
  lemma {:induction false} PlainlyReadIffHonest(b: Block, rows: Rows)
    ensures PlainlyRead(b, rows) <==> Honest(b, rows)
    ensures Honest(b, rows) ==> RunTop(b, rows) == PlainBlock(b, rows)
    decreases b, 1
  {
    PlainlyReadStepsIff(b.steps, rows);
    if HonestSteps(b.steps, rows) { AgreesIff(b, rows); }
  }

  lemma {:induction false} PlainlyReadStepsIff(steps: seq<Step>, rows: Rows)
    ensures PlainlyReadSteps(steps, rows) <==> HonestSteps(steps, rows)
    decreases steps, 0
  {
    if steps != [] {
      PlainlyReadStepIff(steps[0], rows);
      PlainlyReadStepsIff(steps[1..], PlainStep(steps[0], rows).0);
    }
  }

  lemma {:induction false} PlainlyReadStepIff(step: Step, rows: Rows)
    ensures PlainlyReadStep(step, rows) <==> HonestStep(step, rows)
    decreases step, 0
  {
    if step.Nest? { PlainlyReadIffHonest(step.body, rows); }
  }

  /** With honest nested blocks the outcome is the plain one exactly if the block itself is honest. */
  lemma OutcomeIsPlainIff(b: Block, rows: Rows)
    requires HonestSteps(b.steps, rows)
    ensures RunTop(b, rows) == PlainBlock(b, rows) <==> Honest(b, rows)
  {
    PlainlyReadStepsIff(b.steps, rows);
    AgreesIff(b, rows);
  }

  lemma {:induction false} DisciplinedIsHonest(steps: seq<Step>, rows: Rows)
    requires Disciplined(steps)
    ensures HonestSteps(steps, rows) && !GoesOn(steps, rows)
    decreases steps, 0
  {
    if steps != [] {
      assert DisciplinedStep(steps[0]) by { assert steps[0] in steps; }
      DisciplinedStepIsHonest(steps[0], rows);
      var (rows', ok) := PlainStep(steps[0], rows);
      if ok || steps[0].ignore { DisciplinedIsHonest(steps[1..], rows'); }
    }
  }

  lemma {:induction false} DisciplinedStepIsHonest(step: Step, rows: Rows)
    requires DisciplinedStep(step)
    ensures HonestStep(step, rows)
    decreases step, 0
  {
    if step.Nest? { DisciplinedIsHonest(step.body.steps, rows); }
  }

  /** On disciplined programs the connection behaves as if failed blocks had never run. */
  lemma DisciplinedIsPlain(b: Block, rows: Rows)
    requires DisciplinedBlock(b)
    ensures RunTop(b, rows) == PlainBlock(b, rows) && Agrees(b, rows)
  {
    DisciplinedIsHonest(b.steps, rows);
    PlainlyReadIffHonest(b, rows);
  }

  /**
   * Without the discipline the plain reading is false: a swallowed statement error takes the outer transaction down.
   */
  lemma SwallowedErrorPoisonsOuter()
    ensures var inner := Block([Exec(Malformed, true)], false);
            var outer := Block([Nest(inner, true), Exec(Put("k", 1), false)], false);
            RunTop(outer, map[]) == (map[], false) && PlainBlock(outer, map[]) == (map["k" := 1], true)
  {
    var inner := Block([Exec(Malformed, true)], false);
    var outer := Block([Nest(inner, true), Exec(Put("k", 1), false)], false);
    assert RunSteps(inner.steps, Live(map[])) == (Aborted, true);
    assert RunNested(inner, Live(map[])) == (Aborted, false);
    assert outer.steps[1..] == [Exec(Put("k", 1), false)];
    assert RunSteps(outer.steps[1..], Aborted) == (Aborted, false);
    assert PlainSteps(inner.steps, map[]) == (map[], true);
    assert PlainSteps(outer.steps[1..], map[]) == (map["k" := 1], true);
  }

  /** Step i is the one that puts a live transaction into the failed state. */
  predicate Breaks(steps: seq<Step>, i: nat, rows: Rows)
    requires i < |steps|
  {
    var (c, ok) := RunSteps(steps[..i], Live(rows));
    ok && c.Live? && RunStep(steps[i], c).0.Aborted?
  }

  /** A step that leaves the transaction in the failed state fails itself. */
  lemma BreakingFails(step: Step, rows: Rows)
    requires RunStep(step, Live(rows)).0.Aborted?
    ensures !RunStep(step, Live(rows)).1
  {
    if step.Nest? {
      var (c, ok) := RunSteps(step.body.steps, Live(rows));
      assert RunNested(step.body, Live(rows)) == Settle(Live(rows), c, ok && !step.body.fails);
    }
  }

  /** The moment a run breaks is found by looking one step ahead. */
  lemma BreaksShift(steps: seq<Step>, i: nat, rows: Rows)
    requires i + 1 < |steps|
    requires RunStep(steps[0], Live(rows)).0.Live?
    requires RunStep(steps[0], Live(rows)).1 || steps[0].ignore
    ensures Breaks(steps, i + 1, rows) <==> Breaks(steps[1..], i, RunStep(steps[0], Live(rows)).0.rows)
  {
    assert steps[..i + 1][0] == steps[0] && steps[..i + 1][1..] == steps[1..][..i];
  }

  /**
   * A nested block leaves the connection unusable exactly when its callback returns nil although
   * some step broke the transaction and that error, with everything after it, was ignored.
   */
  lemma {:induction false} PoisonedExactly(steps: seq<Step>, rows: Rows)
    ensures RunSteps(steps, Live(rows)) == (Aborted, true)
       <==> exists i :: 0 <= i < |steps| && Breaks(steps, i, rows) && AllIgnored(steps[i..])
  {
    if steps == [] { return; }
    var (c, ok) := RunStep(steps[0], Live(rows));
    assert steps[..0] == [] && steps[0..] == steps;
    assert Breaks(steps, 0, rows) <==> c.Aborted?;
    if c.Aborted? {
      AbortedGoesNowhere(steps[1..]);
      AllIgnoredSplit(steps);
      BreakingFails(steps[0], rows);
      assert RunSteps(steps, Live(rows)) == (Aborted, AllIgnored(steps));
      forall i | 0 < i < |steps| ensures !Breaks(steps, i, rows) {
        assert steps[..i][0] == steps[0];
        AbortedGoesNowhere(steps[..i][1..]);
      }
      assert Breaks(steps, 0, rows);
    } else if !ok && !steps[0].ignore {
      forall i | 0 < i < |steps| ensures !Breaks(steps, i, rows) {
        assert steps[..i][0] == steps[0];
      }
    } else {
      var rest := steps[1..];
      PoisonedExactly(rest, c.rows);
      if i :| 0 <= i < |rest| && Breaks(rest, i, c.rows) && AllIgnored(rest[i..]) {
        BreaksShift(steps, i, rows);
        assert steps[i + 1..] == rest[i..];
      }
      if i :| 0 <= i < |steps| && Breaks(steps, i, rows) && AllIgnored(steps[i..]) {
        BreaksShift(steps, i - 1, rows);
        assert steps[i..] == rest[i - 1..];
      }
    }
  }

  /**
   * A nested block leaves its enclosing transaction unusable exactly when that happens and it returns nil at the end.
   */
  lemma NestedPoisonedExactly(b: Block, rows: Rows)
    ensures RunNested(b, Live(rows)) == (Aborted, false)
       <==> !b.fails && exists i :: 0 <= i < |b.steps| && Breaks(b.steps, i, rows) && AllIgnored(b.steps[i..])
  {
    PoisonedExactly(b.steps, rows);
  }

  // ------------------------------------- for every program: the plain reading of a stricter one

  /**
   * The program with its errors heard: a rejected statement, and a nested block that left the transaction aborted, is
   * no longer ignored. Nothing else changes.
   */
  function Strict(b: Block, rows: Rows): Block
    decreases b, 1
  {
    Block(StrictSteps(b.steps, rows), b.fails)
  }

  function StrictSteps(steps: seq<Step>, rows: Rows): seq<Step>
    decreases steps, 0
  {
    if steps == [] then []
    else
      var c := RunStep(steps[0], Live(rows)).0;
      var first := StrictStep(steps[0], rows);
      if c.Aborted? then [first] else [first] + StrictSteps(steps[1..], c.rows)
  }

  function StrictStep(step: Step, rows: Rows): Step
    decreases step, 0
  {
    var heard := RunStep(step, Live(rows)).0.Aborted?;
    match step
    case Exec(stmt, ignore) => Exec(stmt, ignore && !heard)
    case Nest(body, ignore) => Nest(Strict(body, rows), ignore && !heard)
  }

  /** Every block, honest or not, does what the plain reading of the stricter program says. */
  lemma {:induction false} RunIsStrictPlain(b: Block, rows: Rows)
    ensures RunTop(b, rows) == PlainBlock(Strict(b, rows), rows)
    ensures RunNested(b, Live(rows)).1 == PlainBlock(Strict(b, rows), rows).1
    ensures RunNested(b, Live(rows)).0.Live? ==> RunNested(b, Live(rows)).0 == Live(PlainBlock(Strict(b, rows), rows).0)
    decreases b, 1
  {
    StrictStepsRun(b.steps, rows);
  }

  lemma {:induction false} StrictStepsRun(steps: seq<Step>, rows: Rows)
    ensures var (c, ok) := RunSteps(steps, Live(rows)); var (rows', ok') := PlainSteps(StrictSteps(steps, rows), rows);
            (ok' <==> ok && c.Live?) && (ok' ==> c == Live(rows'))
    decreases steps, 0
  {
    if steps != [] {
      var (c, ok) := RunStep(steps[0], Live(rows));
      var strict := StrictSteps(steps, rows);
      StrictStepRuns(steps[0], rows);
      if c.Aborted? {
        AbortedGoesNowhere(steps[1..]);
      } else {
        assert strict[1..] == StrictSteps(steps[1..], c.rows);
        StrictStepsRun(steps[1..], c.rows);
      }
    }
  }

  lemma {:induction false} StrictStepRuns(step: Step, rows: Rows)
    ensures var (c, ok) := RunStep(step, Live(rows)); var (rows', ok') := PlainStep(StrictStep(step, rows), rows);
            ok' == ok && (c.Live? ==> c == Live(rows'))
    decreases step, 0
  {
    if step.Nest? { RunIsStrictPlain(step.body, rows); }
  }

  /** So the outcome is the plain one exactly if hearing those errors does not change what the plain reading says. */
  lemma OutcomeIsPlainIffStrict(b: Block, rows: Rows)
    ensures RunTop(b, rows) == PlainBlock(b, rows) <==> PlainBlock(Strict(b, rows), rows) == PlainBlock(b, rows)
  {
    RunIsStrictPlain(b, rows);
  }

  // ------------------------------------------------------------------ where an error comes from

  /** The run comes to step n: the steps before it succeed or are ignored. */
  predicate Reaches(steps: seq<Step>, c: Conn, n: nat) {
    n <= |steps| && RunSteps(steps[..n], c).1
  }

  /**
   * The error e is raised at this place of the block's tree. An empty path is the block itself: its SAVEPOINT is
   * refused, its callback ends with an error of its own, or its commit is refused. Any other path goes down through a
   * step that the run comes to and that is not ignored; it ends at a refused statement or inside a nested block.
   */
  predicate Raised(b: Block, c: Conn, path: seq<nat>, e: Err)
    decreases |path|
  {
    if c.Aborted? then path == [] && e == RuntimeQuery
    else if path == [] then
      && Reaches(b.steps, c, |b.steps|)
      && if b.fails then e == Callback else RunSteps(b.steps, c).0.Aborted? && e == CommitFailed
    else
      && path[0] < |b.steps| && Reaches(b.steps, c, path[0]) && !b.steps[path[0]].ignore
      && var here := RunSteps(b.steps[..path[0]], c).0;
         match b.steps[path[0]]
         case Exec(stmt, _) => |path| == 1 && e == RuntimeQuery && (here.Live? ==> Effect(stmt, here.rows).None?)
         case Nest(body, _) => Raised(body, here, path[1..], e)
  }

  /** Some place of the tree raises e. */
  ghost predicate RaisedIn(b: Block, c: Conn, e: Err) {
    exists path: seq<nat> :: Raised(b, c, path, e)
  }

  lemma {:induction false} StepsSplit(steps: seq<Step>, c: Conn, n: nat)
    requires Reaches(steps, c, n)
    ensures RunSteps(steps, c) == RunSteps(steps[n..], RunSteps(steps[..n], c).0)
    ensures StepsErr(steps, c) == StepsErr(steps[n..], RunSteps(steps[..n], c).0)
    decreases n
  {
    if n > 0 {
      assert steps[..n][0] == steps[0] && steps[..n][1..] == steps[1..][..n - 1] && steps[1..][n - 1..] == steps[n..];
      StepErrIffFails(steps[0], c);
      StepsSplit(steps[1..], RunStep(steps[0], c).0, n - 1);
    } else {
      assert steps[0..] == steps && steps[..0] == [];
    }
  }

  /** Steps stop at the first one that fails and is not ignored. */
  lemma {:induction false} StopsAt(steps: seq<Step>, c: Conn) returns (n: nat)
    requires StepsErr(steps, c).Some?
    ensures n < |steps| && Reaches(steps, c, n) && !steps[n].ignore
    ensures StepErr(steps[n], RunSteps(steps[..n], c).0) == StepsErr(steps, c)
    decreases |steps|
  {
    var first := StepErr(steps[0], c);
    if first == None || steps[0].ignore {
      n := StopsAt(steps[1..], RunStep(steps[0], c).0);
      n := n + 1;
      assert steps[..n][0] == steps[0] && steps[..n][1..] == steps[1..][..n - 1];
      StepErrIffFails(steps[0], c);
    } else {
      n := 0;
      assert steps[..0] == [];
    }
  }

  /** Every error a block returns was raised somewhere in its tree and came up unchanged. */
  lemma {:induction false} RaisedSomewhere(b: Block, c: Conn, e: Err) returns (path: seq<nat>)
    requires BlockErr(b, c) == Some(e)
    ensures Raised(b, c, path, e)
    decreases b
  {
    path := [];
    if c.Live? {
      assert b.steps[..|b.steps|] == b.steps;
      StepsErrIffFails(b.steps, c);
      if StepsErr(b.steps, c).Some? {
        var n := StopsAt(b.steps, c);
        path := [n];
        if b.steps[n].Nest? {
          var below := RaisedSomewhere(b.steps[n].body, RunSteps(b.steps[..n], c).0, e);
          path := [n] + below;
        }
      }
    }
  }

  /** And what is raised somewhere is what the block returns. */
  lemma {:induction false} RaisedIsReturned(b: Block, c: Conn, path: seq<nat>, e: Err)
    requires Raised(b, c, path, e)
    ensures BlockErr(b, c) == Some(e) && (e == RuntimeQuery || e == Callback || e == CommitFailed)
    decreases |path|
  {
    if c.Live? {
      assert b.steps[..|b.steps|] == b.steps;
      if path == [] {
        StepsErrIffFails(b.steps, c);
      } else {
        var n := path[0];
        StepsSplit(b.steps, c, n);
        assert b.steps[n..][0] == b.steps[n];
        if b.steps[n].Nest? { RaisedIsReturned(b.steps[n].body, RunSteps(b.steps[..n], c).0, path[1..], e); }
      }
    }
  }

  /**
   * A block returns e exactly if e is raised at some place of its tree. In particular there is at most one such e, and
   * it is never a failed rollback's.
   */
  lemma ErrorIsRaised(b: Block, c: Conn, e: Err)
    ensures BlockErr(b, c) == Some(e) <==> RaisedIn(b, c, e)
  {
    if BlockErr(b, c) == Some(e) {
      var path := RaisedSomewhere(b, c, e);
      assert Raised(b, c, path, e);
    }
    if RaisedIn(b, c, e) {
      var path: seq<nat> :| Raised(b, c, path, e);
      RaisedIsReturned(b, c, path, e);
    }
  }
}
