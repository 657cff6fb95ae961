/** orm.DB handles: Begin, Commit, Rollback, Transaction, and the batch writer built on them. */
module Handles {
  import opened Transactions
  import opened Wrappers

  /** What a transaction's session means to a callback. */
  function Abs(s: Session): Conn {
    if s.aborted then Aborted else Live(s.rows)
  }

  /** Savepoints named by draws lo+1 .. hi of the counter. */
  ghost predicate DrawnBetween(stack: seq<Savepoint>, lo: nat, hi: nat) {
    forall i :: 0 <= i < |stack| ==> Drawn(stack[i], lo, hi)
  }

  ghost predicate Drawn(s: Savepoint, lo: nat, hi: nat) {
    exists k: nat :: lo < k <= hi && s.name == SavepointName(k)
  }

  /** The old stack is still there; whatever lies above it was drawn since. */
  ghost predicate StackGrown(before: seq<Savepoint>, after: seq<Savepoint>, lo: nat, hi: nat) {
    before <= after && DrawnBetween(after[|before|..], lo, hi)
  }

  /** A block's savepoint is found under everything that was left on the stack after it. */
  lemma {:induction false} OwnSavepointFound(stack: seq<Savepoint>, base: nat, k: nat, hi: nat)
    requires base < |stack| && stack[base].name == SavepointName(k)
    requires DrawnBetween(stack[base + 1..], k, hi) && hi < k + UINT64
    ensures LastNamed(stack, SavepointName(k)) == base
    decreases |stack|
  {
    var n := |stack| - 1;
    if n > base {
      assert Drawn(stack[base + 1..][n - base - 1], k, hi);
      var j: nat :| k < j <= hi && stack[n].name == SavepointName(j);
      SavepointNamesDiffer(k, j);
      assert stack[..n][base + 1..] == stack[base + 1..][..n - base - 1];
      OwnSavepointFound(stack[..n], base, k, hi);
    }
  }

  lemma StackGrownTransitive(a: seq<Savepoint>, b: seq<Savepoint>, c: seq<Savepoint>, lo: nat, mid: nat, hi: nat)
    requires lo <= mid <= hi && StackGrown(a, b, lo, mid) && StackGrown(b, c, mid, hi)
    ensures StackGrown(a, c, lo, hi)
  {
    forall i | 0 <= i < |c| - |a| ensures Drawn(c[|a|..][i], lo, hi) {
      if |a| + i < |b| {
        assert Drawn(b[|a|..][i], lo, mid) && c[|a| + i] == b[|a| + i];
      } else {
        assert Drawn(c[|b|..][|a| + i - |b|], mid, hi);
      }
    }
  }

  const DEFAULT_BATCH_SIZE := 100

  /**
   * The batch's meaning: items run in order on one connection until one fails; the second
   * component is the index of that item.
   */
  function RunItems(items: seq<Block>, c: Conn): (Conn, Option<nat>) {
    if items == [] then (c, None)
    else
      var (c', ok) := RunSteps(items[0].steps, c);
      if !ok || items[0].fails then (c', Some(0))
      else
        var (end, failed) := RunItems(items[1..], c');
        (end, if failed.None? then None else Some(failed.value + 1))
  }

  /** The error a batch stops with: that of the first item that fails, under the index of that item. */
  function ItemsErr(items: seq<Block>, i: nat, c: Conn): Option<Err>
    requires i <= |items|
    decreases |items| - i
  {
    if i == |items| then None
    else match CallbackErr(items[i], c)
      case Some(e) => Some(AtItem(i, e))
      case None => ItemsErr(items, i + 1, RunSteps(items[i].steps, c).0)
  }

  function ItemNests(items: seq<Block>): nat {
    if items == [] then 0 else BlockNests(items[0]) + ItemNests(items[1..])
  }

  /** The indices a batch visits. */
  function Visited(items: seq<Block>, c: Conn): seq<nat> {
    var failed := RunItems(items, c).1;
    seq(if failed.None? then |items| else failed.value + 1, i => i)
  }

  class DB {
    const server: Server
    const counter: Counter
    const batchSize: int
    var pool: bool // the handle owns the connection pool
    var tx: SqlTx?
    var state: Option<TransactionState>

    /** A handle on the pool itself. */
    ghost predicate Root() reads this {
      pool && tx == null && state == None
    }

    /** A handle that Begin returned. */
    ghost predicate InTx() reads this {
      tx != null && state.Some?
    }

    ghost predicate Usable() reads this, tx {
      Root() || (InTx() && !state.value.closed && !tx.session.done)
    }

    constructor Open(server: Server, counter: Counter, batchSize: int)
      ensures Root() && this.server == server && this.counter == counter
      ensures this.batchSize == if batchSize > 0 then batchSize else DEFAULT_BATCH_SIZE
    {
      this.server, this.counter, this.batchSize := server, counter, if batchSize <= 0 then DEFAULT_BATCH_SIZE
          else batchSize;
      pool, tx, state := true, null, None;
    }

    constructor CloneForTransaction(parent: DB, pool: bool, tx: SqlTx, state: TransactionState)
      ensures server == parent.server && counter == parent.counter && batchSize == parent.batchSize
      ensures this.pool == pool && this.tx == tx && this.state == Some(state)
    {
      server, counter, batchSize := parent.server, parent.counter, parent.batchSize;
      this.pool, this.tx, this.state := pool, tx, Some(state);
    }

    method Begin() returns (child: DB?, err: Option<Err>)
      requires counter.Valid()
      modifies counter, tx
      ensures counter.Valid() && (child == null <==> err.Some?)
      ensures child != null ==> fresh(child) && child.InTx() && !child.state.value.closed
                                && child.server == server && child.counter == counter
      ensures Root() ==> counter.issued == old(counter.issued) && err == if server.reachable then None
        else Some(RuntimeQuery)
      ensures Root() && err == None ==>
                && fresh(child.tx)
                && child.tx.session == Session(server.committed, [], false, false) && child.state.value.savepoint == ""
      ensures InTx() ==>
                var name := SavepointName(old(counter.issued) + 1);
                var reply := Respond(state.value, CallBegin(name), old(tx.session));
                && tx.session == reply.session && err == reply.err
                && counter.issued == old(counter.issued) + (if reply.sent == None then 0 else 1)
                && (child != null ==> child.tx == tx && child.state.value.savepoint == name)
    {
      if state.Some? && state.value.closed { return null, Some(TransactionClosed); }
      if tx != null {
        var savepoint := counter.NextSavepointName();
        var ok := tx.Send(SetSavepoint(savepoint));
        if !ok { return null, Some(RuntimeQuery); }
        child := new DB.CloneForTransaction(this, pool, tx, TransactionState(savepoint, false));
        return child, None;
      }
      if !pool { return null, Some(Configuration); }
      if !server.reachable { return null, Some(RuntimeQuery); }
      var sqlTx := new SqlTx(server.committed);
      child := new DB.CloneForTransaction(this, false, sqlTx, TransactionState("", false));
      err := None;
    }

    method EnsureTransactionOpen() returns (err: Option<Err>)
      ensures err == if (state.Some? && state.value.closed) || (tx == null && !pool) then Some(TransactionClosed)
        else None
    {
      if state.Some? && state.value.closed { return Some(TransactionClosed); }
      if tx == null && !pool { return Some(TransactionClosed); }
      err := None;
    }

    method MarkTransactionClosed()
      modifies this
      ensures state == (if old(state).Some? then Some(old(state).value.(closed := true)) else None)
      ensures pool == old(pool) && tx == old(tx)
    {
      if state.Some? { state := Some(state.value.(closed := true)); }
    }

    method Commit() returns (err: Option<Err>)
      modifies this, tx, server
      ensures tx == old(tx) && pool == old(pool)
      ensures old(InTx()) ==>
                var before := old(tx.session);
                var reply := Respond(old(state.value), CallCommit, before);
                && state == Some(reply.state) && tx.session == reply.session && err == reply.err
                && server.committed == if reply.sent == Some(CommitTx) && err == None then before.rows
                    else old(server.committed)
      ensures old(Root()) ==> Root() && server.committed == old(server.committed) && err == Some(TransactionClosed)
    {
      err := EnsureTransactionOpen();
      if err.Some? { return; }
      if state.Some? && state.value.savepoint != "" && tx != null {
        var ok := tx.Send(Release(state.value.savepoint));
        MarkTransactionClosed();
        return if ok then None else Some(CommitFailed);
      }
      if tx == null {
        MarkTransactionClosed();
        return Some(TransactionClosed);
      }
      var rows := tx.session.rows;
      var ok := tx.Send(CommitTx);
      if ok { server.committed := rows; }
      MarkTransactionClosed();
      return if ok then None else Some(CommitFailed);
    }

    method Rollback() returns (err: Option<Err>)
      modifies this, tx
      ensures tx == old(tx) && pool == old(pool)
      ensures old(InTx()) ==>
                var reply := Respond(old(state.value), CallRollback, old(tx.session));
                state == Some(reply.state) && tx.session == reply.session && err == reply.err
      ensures old(Root()) ==> Root() && err == Some(TransactionClosed)
    {
      err := EnsureTransactionOpen();
      if err.Some? { return; }
      if state.Some? && state.value.savepoint != "" && tx != null {
        var ok := tx.Send(RollbackTo(state.value.savepoint));
        MarkTransactionClosed();
        return if ok then None else Some(RollbackFailed);
      }
      if tx == null {
        MarkTransactionClosed();
        return Some(TransactionClosed);
      }
      var ok := tx.Send(RollbackTx);
      MarkTransactionClosed();
      return if ok then None else Some(RollbackFailed);
    }

    /** execContext: statements outside a transaction commit by themselves. */
    method ExecContext(stmt: Stmt) returns (err: Option<Err>)
      modifies tx, server
      ensures InTx() ==>
                var reply := Respond(state.value, CallExec(stmt), old(tx.session));
                tx.session == reply.session && err == reply.err && server.committed == old(server.committed)
      ensures Root() && server.reachable ==>
                match Effect(stmt, old(server.committed))
                case None => err == Some(RuntimeQuery) && server.committed == old(server.committed)
                case Some(rows) => err == None && server.committed == rows
      ensures Root() && !server.reachable ==> err == Some(RuntimeQuery) && server.committed == old(server.committed)
    {
      if state.Some? && state.value.closed { return Some(TransactionClosed); }
      if tx != null {
        var ok := tx.Send(Statement(stmt));
        return if ok then None else Some(RuntimeQuery);
      }
      if !pool { return Some(Configuration); }
      if !server.reachable { return Some(RuntimeQuery); }
      match Effect(stmt, server.committed) {
        case None => return Some(RuntimeQuery);
        case Some(rows) => server.committed := rows; return None;
      }
    }

    /**
     * The callback API. On the pool the committed rows become what the recursive reference says; inside a
     * transaction the session does, the savepoints of the enclosing blocks stay where they are, and
     * what is left above them can never be mistaken for theirs.
     */
    method Transaction(fn: Option<Block>) returns (err: Option<Err>)
      requires Usable() && counter.Valid()
      requires fn.Some? ==> BlockNests(fn.value) < UINT64
      modifies counter, tx, server
      ensures counter.Valid()
      ensures old(counter.issued) <= counter.issued <= old(counter.issued) + 1 +
        (if fn.Some? then BlockNests(fn.value) else 0)
      ensures fn.Some? && old(Root()) ==>
                (server.committed, err == None) ==
                  if server.reachable then RunTop(fn.value, old(server.committed)) else (old(server.committed), false)
      ensures fn.Some? && old(Root()) ==>
                err == if server.reachable then BlockErr(fn.value, Live(old(server.committed))) else Some(RuntimeQuery)
      ensures old(InTx()) ==>
                && server.committed == old(server.committed) && !tx.session.done
                && StackGrown(old(tx.session.stack), tx.session.stack, old(counter.issued), counter.issued)
                && (fn.Some? ==> (Abs(tx.session), err == None) == RunNested(fn.value, Abs(old(tx.session))))
                && (fn.Some? ==> err == BlockErr(fn.value, Abs(old(tx.session))))
      ensures fn.None? ==> server.committed == old(server.committed)
                           && (old(InTx()) ==> Abs(tx.session) == Abs(old(tx.session)))
      ensures fn.None? ==>
                var begins := if old(Root()) then server.reachable else Abs(old(tx.session)).Live?;
                err == Some(if begins then Configuration else RuntimeQuery)
      decreases if fn.Some? then fn.value else Block([], false), 1
    {
      ghost var entry := if tx == null then Session(map[], [], false, false) else tx.session;
      var child;
      child, err := Begin();
      if err.Some? { return; }
      ghost var k := counter.issued;
      if fn.None? {
        if InTx() { OwnSavepointFound(child.tx.session.stack, |old(tx.session.stack)|, k, k); }
        var rbErr := child.Rollback();
        return if rbErr.Some? then rbErr else Some(Configuration);
      }
      err := RunCallback(child, fn.value);
      err := Conclude(child, err, entry, k);
    }

    /**
     * The end of Transaction, for any handle: roll the child back when the callback failed, commit it otherwise. A
     * served rollback leaves the callback's error as it is; only a failing one is joined to it.
     */
    method Finish(child: DB, cbErr: Option<Err>) returns (err: Option<Err>)
      requires child.InTx() && child.server == server
      modifies child, child.tx, server
      ensures child.tx == old(child.tx) && child.pool == old(child.pool)
      ensures var reply := Respond(old(child.state.value), if cbErr == None then CallCommit else CallRollback,
                                   old(child.tx.session));
              && child.state == Some(reply.state) && child.tx.session == reply.session
              && (cbErr == None || reply.err == None ==> err == if cbErr == None then reply.err else cbErr)
              && (cbErr.Some? && reply.err.Some? ==> err == Some(Joined(cbErr.value, reply.err.value)))
              && server.committed == if reply.sent == Some(CommitTx) && err == None then old(child.tx.session.rows)
                                     else old(server.committed)
    {
      if cbErr.Some? {
        var rbErr := child.Rollback();
        return if rbErr.Some? then Some(Joined(cbErr.value, rbErr.value)) else cbErr;
      }
      err := child.Commit();
    }

    /** The end of Transaction on a handle that its callback left open: every rollback is served. */
    method Conclude(child: DB, cbErr: Option<Err>, ghost entry: Session, ghost k: nat) returns (err: Option<Err>)
      requires child != this && child.InTx() && child.Usable() && child.server == server
      requires tx == null ==> child.state.value.savepoint == ""
      requires tx != null ==>
                 && InTx() && child.tx == tx && child.state.value.savepoint == SavepointName(k)
                 && !entry.aborted && 0 < k <= counter.issued < k + UINT64
                 && StackGrown(entry.stack + [Savepoint(SavepointName(k), entry.rows)], tx.session.stack, k,
                     counter.issued)
      modifies child, child.tx, server
      ensures tx == null ==>
                (server.committed, err == None) ==
                  if cbErr == None && Abs(old(child.tx.session)).Live? then (old(child.tx.session.rows), true)
                  else (old(server.committed), false)
      ensures err == Verdict(cbErr, Abs(old(child.tx.session)))
      ensures tx != null ==>
                && server.committed == old(server.committed) && !tx.session.done
                && entry.stack <= tx.session.stack &&
                    DrawnBetween(tx.session.stack[|entry.stack|..], k - 1, counter.issued)
                && (Abs(tx.session), err == None) == Settle(Abs(entry), Abs(old(tx.session)), cbErr == None)
    {
      if tx != null {
        var stack := tx.session.stack;
        var base := |entry.stack|;
        assert stack[..base + 1] == entry.stack + [Savepoint(SavepointName(k), entry.rows)];
        assert stack[base] == stack[..base + 1][base];
        OwnSavepointFound(stack, base, k, counter.issued);
        assert stack[..base] == entry.stack;
        assert SavepointName(k)[0] == 's';
        assert stack[base..] == [stack[base]] + stack[base + 1..];
        assert Drawn(stack[base], k - 1, counter.issued);
      }
      err := Finish(child, cbErr);
    }

    function BatchSizeLimit(total: int): (limit: int)
      ensures 0 < limit <= (if batchSize > 0 then batchSize else DEFAULT_BATCH_SIZE)
      ensures limit == total || limit == if batchSize > 0 then batchSize else DEFAULT_BATCH_SIZE
      ensures total > 0 ==> limit <= total
    {
      if batchSize <= 0 then
        if total <= 0 then DEFAULT_BATCH_SIZE else if total < DEFAULT_BATCH_SIZE then total else DEFAULT_BATCH_SIZE
      else if total <= 0 || total > batchSize then batchSize
      else total
    }

    /**
     * CreateMany, UpdateMany, DeleteMany. `items` is None when the argument is not a slice of models;
     * `calls` lists the indices handed to the item function.
     */
    method BatchWrite(items: Option<seq<Block>>) returns (calls: seq<nat>, err: Option<Err>)
      requires Usable() && counter.Valid()
      requires items.Some? ==> ItemNests(items.value) + 1 < UINT64
      modifies counter, tx, server
      ensures counter.Valid()
      ensures items.None? ==> err == Some(Configuration) && calls == []
      ensures items.None? || items.value == [] ==>
                server.committed == old(server.committed) && (old(InTx()) ==> tx.session == old(tx.session))
      ensures items == Some([]) ==> err == None && calls == []
      ensures items.Some? && items.value != [] && old(Root()) ==>
                var (end, failed) := RunItems(items.value, Live(old(server.committed)));
                && calls == (if server.reachable then Visited(items.value, Live(old(server.committed))) else [])
                && (err == if server.reachable then Verdict(ItemsErr(items.value, 0, Live(old(server.committed))), end)
                           else Some(RuntimeQuery))
                && (server.committed, err == None) ==
                   if server.reachable && failed == None && end.Live? then (end.rows, true)
                       else (old(server.committed), false)
      ensures items.Some? && items.value != [] && old(InTx()) ==>
                var entry := Abs(old(tx.session));
                var (end, failed) := RunItems(items.value, entry);
                && server.committed == old(server.committed)
                && calls == (if entry.Aborted? then [] else Visited(items.value, entry))
                && (err == if entry.Aborted? then Some(RuntimeQuery) else Verdict(ItemsErr(items.value, 0, entry), end))
                && (Abs(tx.session), err == None) ==
                   if entry.Aborted? then (Aborted, false) else Settle(entry, end, failed == None)
    {
      calls := [];
      if items.None? { return calls, Some(Configuration); }
      if |items.value| == 0 { return calls, None; }
      var limit := BatchSizeLimit(|items.value|);
      ghost var entry := if tx == null then Session(map[], [], false, false) else tx.session;
      var child;
      child, err := Begin();
      if err.Some? { return; }
      ghost var k := counter.issued;
      calls, err := RunChunks(child, items.value, limit);
      err := Conclude(child, err, entry, k);
    }
  }

  lemma {:induction false} RunItemsSplit(items: seq<Block>, i: nat, c: Conn)
    requires i <= |items| && RunItems(items[..i], c).1 == None
    ensures RunItems(items, c) ==
              var (end, failed) := RunItems(items[i..], RunItems(items[..i], c).0);
              (end, if failed.None? then None else Some(failed.value + i))
    decreases i
  {
    if i == 0 {
      assert items[0..] == items && items[..0] == [];
    } else {
      assert items[..i][0] == items[0] && items[..i][1..] == items[1..][..i - 1] && items[1..][i - 1..] == items[i..];
      RunItemsSplit(items[1..], i - 1, RunSteps(items[0].steps, c).0);
    }
  }

  /** Behind a prefix that runs without a failure the error of a batch is that of the rest. */
  lemma {:induction false} ItemsErrSplit(items: seq<Block>, i: nat, c: Conn)
    requires i <= |items| && RunItems(items[..i], c).1 == None
    ensures ItemsErr(items, 0, c) == ItemsErr(items, i, RunItems(items[..i], c).0)
    decreases i
  {
    if i > 0 {
      var n := i - 1;
      assert items[..i][..n] == items[..n] && items[..i][n..] == [items[n]] && [items[n]][1..] == [];
      PrefixRuns(items[..i], n, c);
      RunItemsSplit(items[..i], n, c);
      ItemsErrSplit(items, n, c);
      BlockErrIffFails(items[n], RunItems(items[..n], c).0);
    } else {
      assert items[..0] == [];
    }
  }

  lemma {:induction false} PrefixRuns(items: seq<Block>, n: nat, c: Conn)
    requires n <= |items| && RunItems(items, c).1 == None
    ensures RunItems(items[..n], c).1 == None
    decreases n
  {
    if n > 0 {
      assert items[..n][0] == items[0] && items[..n][1..] == items[1..][..n - 1];
      PrefixRuns(items[1..], n - 1, RunSteps(items[0].steps, c).0);
    } else {
      assert items[..0] == [];
    }
  }

  /**
   * What a part of a batch leaves: savepoints above the entry stack, as many names drawn as it has nested blocks,
   * nothing committed.
   */
  twostate predicate Worked(tx: DB, nests: int)
    reads tx, tx.tx, tx.counter, tx.server
  {
    && tx.tx != null && old(tx.tx) == tx.tx && tx.counter.Valid() && tx.server.committed == old(tx.server.committed) &&
        !tx.tx.session.done
    && old(tx.counter.issued) <= tx.counter.issued <= old(tx.counter.issued) + nests
    && StackGrown(old(tx.tx.session.stack), tx.tx.session.stack, old(tx.counter.issued), tx.counter.issued)
  }

  /** How a batch stands behind a part of it: at position `at` without a failure, or stopped. */
  ghost predicate Stopped(tx: DB, items: seq<Block>, at: nat, from: Conn, calls: seq<nat>, err: Option<Err>)
    reads tx, tx.tx, tx.counter
  {
    if err == None then Progress(tx, items, at, from, calls)
    else
      && tx.tx != null && RunItems(items, from).1.Some? && Abs(tx.tx.session) == RunItems(items, from).0 &&
          calls == Visited(items, from) && err == ItemsErr(items, 0, from)
  }

  /** One item. */
  method RunItem(tx: DB, items: seq<Block>, i: nat, calls: seq<nat>, ghost from: Conn)
    returns (calls': seq<nat>, err: Option<Err>)
    requires i < |items| && Progress(tx, items, i, from, calls) && BlockNests(items[i]) < UINT64
    modifies tx.counter, tx.tx, tx.server
    ensures Worked(tx, BlockNests(items[i])) && Stopped(tx, items, i + 1, from, calls', err)
  {
    assert items[i..][0] == items[i] && items[i..][1..] == items[i + 1..];
    RunItemsSplit(items, i, from);
    calls' := calls + [i];
    ItemsErrSplit(items, i, from);
    err := RunCallback(tx, items[i]);
    if err == None {
      ExtendPrefix(items, i, from);
    } else {
      err := Some(AtItem(i, err.value));
    }
  }

  lemma NextItemNests(items: seq<Block>, i: nat)
    requires i < |items|
    ensures ItemNests(items[i..]) == BlockNests(items[i]) + ItemNests(items[i + 1..])
  {
    assert items[i..][0] == items[i] && items[i..][1..] == items[i + 1..];
  }

  /** One chunk: the items from start to before end. */
  method RunChunk(tx: DB, items: seq<Block>, start: nat, end: nat, calls: seq<nat>, ghost from: Conn)
    returns (calls': seq<nat>, err: Option<Err>)
    requires start <= end <= |items| && Progress(tx, items, start, from, calls) && ItemNests(items[start..]) < UINT64
    modifies tx.counter, tx.tx, tx.server
    ensures Worked(tx, ItemNests(items[start..]) - if err == None then ItemNests(items[end..]) else 0)
    ensures Stopped(tx, items, end, from, calls', err)
  {
    calls' := calls;
    for i := start to end
      invariant ItemNests(items[i..]) <= ItemNests(items[start..])
      invariant Worked(tx, ItemNests(items[start..]) - ItemNests(items[i..])) && Progress(tx, items, i, from, calls')
    {
      label Item:
      NextItemNests(items, i);
      calls', err := RunItem(tx, items, i, calls', from);
      StackGrownTransitive(old(tx.tx.session.stack), old@Item(tx.tx.session.stack), tx.tx.session.stack,
                           old(tx.counter.issued), old@Item(tx.counter.issued), tx.counter.issued);
      if err.Some? { return; }
    }
    err := None;
  }

  /** The chunk loop inside the batch's transaction. */
  method RunChunks(tx: DB, items: seq<Block>, batchSize: int) returns (calls: seq<nat>, err: Option<Err>)
    requires tx.InTx() && tx.Usable() && tx.counter.Valid() && batchSize > 0 && ItemNests(items) < UINT64
    modifies tx.counter, tx.tx, tx.server
    ensures tx.counter.Valid() && tx.server.committed == old(tx.server.committed) && !tx.tx.session.done
    ensures old(tx.counter.issued) <= tx.counter.issued <= old(tx.counter.issued) + ItemNests(items)
    ensures StackGrown(old(tx.tx.session.stack), tx.tx.session.stack, old(tx.counter.issued), tx.counter.issued)
    ensures var (end, failed) := RunItems(items, Abs(old(tx.tx.session)));
            Abs(tx.tx.session) == end && (err == None <==> failed == None)
    ensures calls == Visited(items, Abs(old(tx.tx.session))) && err == ItemsErr(items, 0, Abs(old(tx.tx.session)))
  {
    ghost var from := Abs(tx.tx.session);
    calls := [];
    var start := 0;
    assert items[0..] == items;
    while start < |items|
      invariant 0 <= start
      invariant ItemNests(items[Least(start, |items|)..]) <= ItemNests(items)
      invariant Progress(tx, items, Least(start, |items|), from, calls)
      invariant Worked(tx, ItemNests(items) - ItemNests(items[Least(start, |items|)..]))
    {
      label Chunk:
      var end := Least(start + batchSize, |items|);
      calls, err := RunChunk(tx, items, start, end, calls, from);
      StackGrownTransitive(old(tx.tx.session.stack), old@Chunk(tx.tx.session.stack), tx.tx.session.stack,
                           old(tx.counter.issued), old@Chunk(tx.counter.issued), tx.counter.issued);
      if err.Some? { return; }
      start := start + batchSize;
    }
    assert items[..|items|] == items;
    ItemsErrSplit(items, |items|, from);
    err := None;
  }

  function Least(a: int, b: int): int {
    if a < b then a else b
  }

  /** The first i items have run without a failure. */
  ghost predicate Progress(tx: DB, items: seq<Block>, i: nat, from: Conn, calls: seq<nat>)
    reads tx, tx.tx, tx.counter
  {
    && i <= |items| && tx.Usable() && tx.InTx() && tx.counter.Valid()
    && RunItems(items[..i], from) == (Abs(tx.tx.session), None)
    && calls == seq(i, j => j)
  }

  lemma {:induction false} ExtendPrefix(items: seq<Block>, i: nat, c: Conn)
    requires i < |items| && RunItems(items[..i], c).1 == None
    requires var (c', ok) := RunSteps(items[i].steps, RunItems(items[..i], c).0); ok && !items[i].fails
    ensures RunItems(items[..i + 1], c) == (RunSteps(items[i].steps, RunItems(items[..i], c).0).0, None)
  {
    var prefix := items[..i + 1];
    assert prefix[..i] == items[..i] && prefix[i..] == [items[i]];
    RunItemsSplit(prefix, i, c);
    assert [items[i]][1..] == [];
  }

  /** A callback working on its transaction handle: arbitrary statements and nested transactions. */
  method RunCallback(tx: DB, b: Block) returns (err: Option<Err>)
    requires tx.InTx() && tx.Usable() && tx.counter.Valid() && BlockNests(b) < UINT64
    modifies tx.counter, tx.tx, tx.server
    ensures tx.counter.Valid() && tx.server.committed == old(tx.server.committed) && !tx.tx.session.done
    ensures old(tx.counter.issued) <= tx.counter.issued <= old(tx.counter.issued) + BlockNests(b)
    ensures StackGrown(old(tx.tx.session.stack), tx.tx.session.stack, old(tx.counter.issued), tx.counter.issued)
    ensures var (c, ok) := RunSteps(b.steps, Abs(old(tx.tx.session)));
            Abs(tx.tx.session) == c && (err == None <==> ok && !b.fails)
    ensures err == CallbackErr(b, Abs(old(tx.tx.session)))
    decreases b, 0
  {
    ghost var start := Abs(tx.tx.session);
    for i := 0 to |b.steps|
      invariant tx.counter.Valid() && tx.server.committed == old(tx.server.committed) && !tx.tx.session.done
      invariant old(tx.counter.issued) <= tx.counter.issued
      invariant tx.counter.issued + Nests(b.steps[i..]) <= old(tx.counter.issued) + BlockNests(b)
      invariant StackGrown(old(tx.tx.session.stack), tx.tx.session.stack, old(tx.counter.issued), tx.counter.issued)
      invariant RunSteps(b.steps[i..], Abs(tx.tx.session)) == RunSteps(b.steps, start)
      invariant StepsErr(b.steps[i..], Abs(tx.tx.session)) == StepsErr(b.steps, start)
    {
      label Step:
      ghost var rest := b.steps[i..];
      assert rest[0] == b.steps[i] && rest[1..] == b.steps[i + 1..];
      match b.steps[i] {
        case Exec(stmt, _) => err := tx.ExecContext(stmt);
        case Nest(body, _) =>
          err := tx.Transaction(Some(body));
          StackGrownTransitive(old(tx.tx.session.stack), old@Step(tx.tx.session.stack), tx.tx.session.stack,
                               old(tx.counter.issued), old@Step(tx.counter.issued), tx.counter.issued);
      }
      if err.Some? && !b.steps[i].ignore { return; }
    }
    assert b.steps[|b.steps|..] == [];
    err := if b.fails then Some(Callback) else None;
  }
}

