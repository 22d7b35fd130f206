/**
 * The request handler as it is written (RequestHandler.cpp, sqlite3_wrapper/): the methods below
 * run against a world in which SQLite decides the outcome of each call and other connections run
 * in between. Whatever they do, every execution is a run of the state machine of `Server`, and
 * the response returned is the answer the machine gives.
 */
module Handler {
  import opened Wrappers
  import opened Values
  import opened Store
  import opened Server
  import opened ServerProofs
  import opened Commands
  import Names

  const SQLITE_IOERR: int := 10

  datatype Prepared =
    | PrepareOk(statement: Option<Statement>, columns: seq<string>)
    | PrepareIsBusy
    | PrepareError(code: int)

  datatype Stepped = StepRow(tuple: seq<SqlValue>) | StepDone | StepError(code: int)

  /** The outcome of one sqlite3_prepare_v2. */
  ghost function PrepareCall(c: ConnId, rc: Prepared): Event {
    match rc
    case PrepareIsBusy => PrepareBusy(c)
    case PrepareError(code) => PrepareFails(c, code)
    case PrepareOk(statement, columns) => Event.Prepare(c, statement, columns)
  }

  /** sqlite3_prepare_v2 was called until it did not report BUSY, or at least once. */
  ghost predicate PreparedAfterRetries(before: seq<Event>, after: seq<Event>, c: ConnId) {
    |before| < |after| && before <= after
    && forall i :: |before| <= i < |after| - 1 ==> after[i] == PrepareBusy(c)
  }

  ghost predicate LastIs(calls: seq<Event>, last: Event) {
    calls != [] && calls[|calls| - 1] == last
  }

  lemma FirstTry(before: seq<Event>, rc: Prepared, c: ConnId)
    ensures var after := before + [PrepareCall(c, rc)];
            PreparedAfterRetries(before, after, c) && LastIs(after, PrepareCall(c, rc))
  {
  }

  lemma AnotherTry(before: seq<Event>, calls: seq<Event>, rc: Prepared, c: ConnId)
    requires PreparedAfterRetries(before, calls, c) && LastIs(calls, PrepareCall(c, PrepareIsBusy))
    ensures var after := calls + [PrepareCall(c, rc)];
            PreparedAfterRetries(before, after, c) && LastIs(after, PrepareCall(c, rc))
  {
  }

  /** One sqlite3_step was made, with this outcome. */
  ghost predicate StepCalls(before: seq<Event>, after: seq<Event>, c: ConnId, rc: Stepped) {
    |after| == |before| + 1 && before <= after &&
    var e := after[|before|];
    match rc
    case StepRow(tuple) => e == Row(c, tuple)
    case StepDone => e == Done(c)
    case StepError(code) => e.StepFails? && e.conn == c && e.error == code
  }

  /** What a step of a statement leaves of its connection, but for the lock. */
  ghost predicate SteppedTo(p: Progress, rc: Stepped, p': Progress)
    requires p.Stepping?
  {
    match rc
    case StepRow(tuple) => p' == p.(tuples := p.tuples + [tuple]) && |tuple| == |p.columns|
    case StepDone => p' == Finalizing(p.request, p.handle, Rows(TableOf(p.columns, p.tuples)))
    case StepError(code) => p' == Finalizing(p.request, p.handle, SqlError(code))
  }

  /** What a step of a statement changes of its connection. */
  lemma StatementStep(config: Config, st: Server, e: Event)
    requires Enabled(st, e) && (e.Lock? || e.Row? || e.Done? || e.StepFails?)
    ensures var p, st' := st.conns[e.conn].progress, Step(config, st, e);
            && e.conn in st'.conns
            && st'.conns[e.conn] == st.conns[e.conn].(progress :=
                 if e.Lock? then p
                 else if e.Row? then p.(tuples := p.tuples + [e.tuple])
                 else if e.Done? then Finalizing(p.request, p.handle, Rows(TableOf(p.columns, p.tuples)))
                 else Finalizing(p.request, p.handle, SqlError(e.error)))
  {
    hide TableOf, Locked, Finished, Failed, CanFinish, CanLock;
  }

  lemma OneStep(before: seq<Event>, e: Event, rc: Stepped)
    requires match rc
             case StepRow(tuple) => e == Row(e.conn, tuple)
             case StepDone => e == Done(e.conn)
             case StepError(code) => e.StepFails? && e.error == code
    ensures StepCalls(before, before + CallOf(e, e.conn), e.conn, rc)
  {
  }

  ghost function OutcomeOf(more: Result<bool, int>, row: seq<SqlValue>): Stepped {
    match more
    case Ok(true) => StepRow(row)
    case Ok(false) => StepDone
    case Err(code) => StepError(code)
  }

  /** Where the handler of request r is after a step that followed these tuples. */
  ghost predicate StepLeaves(
    r: RequestId, columns: seq<string>, tuples: seq<seq<SqlValue>>, row: seq<SqlValue>, more: Result<bool, int>,
    p: Progress)
  {
    match more
    case Ok(true) =>
      p.Stepping? && p.request == r && p.columns == columns && |row| == |columns| && p.tuples == tuples + [row]
    case Ok(false) => p.Finalizing? && p.request == r && p.answer == Rows(TableOf(columns, tuples))
    case Err(code) => p.Finalizing? && p.request == r && p.answer == SqlError(code)
  }

  /** The next step follows the row of the one before. */
  lemma StepLeavesNext(
    r: RequestId, columns: seq<string>, tuples: seq<seq<SqlValue>>, p: Progress, more: Result<bool, int>,
    row: seq<SqlValue>, p': Progress)
    requires p.Stepping? && p.request == r && p.columns == columns && p.tuples == tuples
    requires SteppedTo(p, OutcomeOf(more, row), p')
    ensures StepLeaves(r, columns, tuples, row, more, p')
  {
  }

  lemma StillStepping(
    r: RequestId, columns: seq<string>, tuples: seq<seq<SqlValue>>, row: seq<SqlValue>, p: Progress)
    requires StepLeaves(r, columns, tuples, row, Ok(true), p)
    ensures p.Stepping? && p.request == r && p.columns == columns && p.tuples == tuples + [row] && |row| == |columns|
  {
  }

  lemma LeftFinalizing(
    r: RequestId, columns: seq<string>, tuples: seq<seq<SqlValue>>, row: seq<SqlValue>, more: Result<bool, int>,
    p: Progress)
    requires more != Ok(true) && StepLeaves(r, columns, tuples, row, more, p)
    ensures p.Finalizing? && p.request == r
    ensures p.answer == if more.Err? then SqlError(more.error) else Rows(TableOf(columns, tuples))
  {
  }

  lemma NoRowsYet(start: seq<Event>, c: ConnId, columns: seq<string>)
    ensures start + RowEvents(c, []) == start && Rectangular(columns, [])
    ensures Values.Answer(columns, []).rows == []
  {
  }

  lemma RowsEnd(start: seq<Event>, calls: seq<Event>, c: ConnId, columns: seq<string>, tuples: seq<seq<SqlValue>>,
                more: Result<bool, int>, row: seq<SqlValue>, answer: Answer)
    requires more != Ok(true) && StepCalls(start + RowEvents(c, tuples), calls, c, OutcomeOf(more, row))
    requires Rectangular(columns, tuples)
    requires answer == if more.Err? then SqlError(more.error)
                       else Rows(QueryResult(columns, Values.Answer(columns, tuples).rows))
    ensures SteppedThrough(start, calls + [Finalize(c)], c, tuples, answer)
    ensures answer == if more.Err? then SqlError(more.error) else Rows(TableOf(columns, tuples))
    ensures answer.Rows? ==> answer == Rows(Values.Answer(columns, tuples))
  {
    var after := calls + [Finalize(c)];
    assert after[|after| - 2] == calls[|calls| - 1];
  }

  lemma AnotherRow(start: seq<Event>, calls: seq<Event>, c: ConnId, tuples: seq<seq<SqlValue>>, tuple: seq<SqlValue>)
    requires StepCalls(start + RowEvents(c, tuples), calls, c, StepRow(tuple))
    ensures start + RowEvents(c, tuples + [tuple]) == calls
  {
    assert calls == start + RowEvents(c, tuples) + [Row(c, tuple)];
    assert RowEvents(c, tuples + [tuple]) == RowEvents(c, tuples) + [Row(c, tuple)];
  }

  function RowEvents(c: ConnId, tuples: seq<seq<SqlValue>>): (events: seq<Event>)
    ensures |events| == |tuples|
  {
    seq(|tuples|, i requires 0 <= i < |tuples| => Row(c, tuples[i]))
  }

  /**
   * A statement yielded these tuples and then ended, with DONE when the answer has rows and with
   * the answer's error otherwise, and was finalised.
   */
  ghost predicate SteppedThrough(
    before: seq<Event>, after: seq<Event>, c: ConnId, tuples: seq<seq<SqlValue>>, answer: Answer)
  {
    && |after| == |before| + |tuples| + 2 && before + RowEvents(c, tuples) <= after
    && after[|after| - 1] == Finalize(c)
    && var end := after[|after| - 2];
       if answer.Rows? then end == Done(c)
       else answer.SqlError? && end.StepFails? && end.conn == c && end.error == answer.error
  }

  /** An answer has rows only after the statement has reached DONE and was finalised; otherwise it is an error. */
  ghost predicate EndsWithRows(calls: seq<Event>, c: ConnId, answer: Answer) {
    if answer.Rows? then |calls| >= 2 && calls[|calls| - 2] == Done(c) && calls[|calls| - 1] == Finalize(c)
    else answer.SqlError?
  }

  lemma RowsAreLast(before: seq<Event>, after: seq<Event>, c: ConnId, tuples: seq<seq<SqlValue>>, answer: Answer)
    requires SteppedThrough(before, after, c, tuples, answer)
    ensures EndsWithRows(after, c, answer)
  {
  }

  /** What connection c has done in a trace, in order; that it was granted the lock is not its doing. */
  ghost function Calls(trace: seq<Event>, c: ConnId): seq<Event> {
    if trace == [] then [] else Calls(trace[..|trace| - 1], c) + CallOf(trace[|trace| - 1], c)
  }

  ghost function CallOf(e: Event, c: ConnId): seq<Event> {
    if e.conn == c && !e.Lock? then [e] else []
  }

  lemma CallsSnoc(trace: seq<Event>, e: Event, c: ConnId)
    ensures Calls(trace + [e], c) == Calls(trace, c) + CallOf(e, c)
  {
    assert (trace + [e])[..|trace|] == trace;
  }

  /** Between these points the connection has received no request. */
  ghost predicate NothingReceived(before: seq<Event>, after: seq<Event>) {
    before <= after && forall i :: |before| <= i < |after| ==> !after[i].Receive?
  }

  /** The connection has received one request, first of all. */
  ghost predicate ReceivedFirst(before: seq<Event>, after: seq<Event>, e: Event) {
    NothingReceived(before + [e], after)
  }

  lemma NothingReceivedInBetween(a: seq<Event>, b: seq<Event>, c: seq<Event>)
    requires NothingReceived(a, b) && NothingReceived(b, c)
    ensures NothingReceived(a, c)
  {
  }

  lemma OneMoreCall(a: seq<Event>, e: Event)
    requires !e.Receive?
    ensures NothingReceived(a, a + [e])
  {
  }

  lemma PreparingReceivesNothing(a: seq<Event>, b: seq<Event>, c: ConnId)
    requires PreparedAfterRetries(a, b, c) && !b[|b| - 1].Receive?
    ensures NothingReceived(a, b)
  {
  }

  lemma SteppingReceivesNothing(a: seq<Event>, b: seq<Event>, c: ConnId, tuples: seq<seq<SqlValue>>, answer: Answer)
    requires SteppedThrough(a, b, c, tuples, answer)
    ensures NothingReceived(a, b)
  {
    var rows := a + RowEvents(c, tuples);
    forall i | |a| <= i < |b| ensures !b[i].Receive? {
      if i < |rows| {
        assert b[i] == rows[i] == RowEvents(c, tuples)[i - |a|];
      }
    }
  }

  /** The shared state, what has happened, and what will happen when this handler waits. */
  class World {
    const config: Config
    var state: Server
    var script: seq<Event>     // how SQLite's calls turn out and what other connections do
    ghost var trace: seq<Event>

    constructor (config: Config, script: seq<Event>)
      ensures Valid() && state == START && this.config == config && this.script == script
    {
      this.config, this.script := config, script;
      state, trace := START, [];
    }

    ghost predicate Valid()
      reads this
    {
      Run(config, START, trace) == Some(state)
    }

    /** Request r of this connection is not used by the others. */
    ghost predicate Reserved(c: ConnId, r: RequestId)
      reads this
    {
      && r !in state.received
      && forall i :: 0 <= i < |script| && script[i].Receive? && script[i].conn != c ==> script[i].request != r
    }

    method Take(e: Event)
      requires Valid() && Enabled(state, e)
      modifies this`state, this`trace
      ensures Valid() && state == Step(config, old(state), e) && trace == old(trace) + [e]
      ensures forall c :: Calls(trace, c) == old(Calls(trace, c)) + CallOf(e, c)
    {
      RunAppend(config, START, trace, e);
      forall c ensures Calls(trace + [e], c) == Calls(trace, c) + CallOf(e, c) {
        CallsSnoc(trace, e, c);
      }
      state, trace := Step(config, state, e), trace + [e];
    }

    /** Other connections run for a while. */
    method Others(c: ConnId)
      requires Valid() && c in state.conns
      modifies this
      ensures Valid() && c in state.conns && state.conns[c] == old(state.conns[c])
      ensures |script| <= |old(script)|
      ensures old(trace) <= trace && Calls(trace, c) == old(Calls(trace, c))
      ensures forall r :: old(Reserved(c, r)) ==> Reserved(c, r)
    {
      while script != [] && script[0].conn != c && Enabled(state, script[0])
        invariant Valid() && c in state.conns && state.conns[c] == old(state.conns[c])
        invariant |script| <= |old(script)|
        invariant old(trace) <= trace && Calls(trace, c) == old(Calls(trace, c))
        invariant forall r :: old(Reserved(c, r)) ==> Reserved(c, r)
        decreases |script|
      {
        OthersLeaveConn(config, state, script[0], c);
        Take(script[0]);
        script := script[1..];
      }
    }

    /** The next entry of the script, when it is one this connection can take. */
    method Next(c: ConnId) returns (e: Option<Event>)
      modifies this`script
      ensures |script| <= |old(script)|
      ensures e.Some? ==> e.value.conn == c && Enabled(state, e.value) && |script| < |old(script)|
      ensures forall r :: old(Reserved(c, r)) ==> Reserved(c, r)
    {
      if script == [] || script[0].conn != c || !Enabled(state, script[0]) {
        return None;
      }
      e := Some(script[0]);
      script := script[1..];
    }

    /** sqlite3_open for a handle that is not cached yet. */
    method SqliteOpen(c: ConnId) returns (handle: Result<HandleId, int>)
      requires Valid() && c in state.conns && state.conns[c].progress.Opening?
      requires state.conns[c].progress.db !in state.conns[c].databases
      modifies this
      ensures old(trace) <= trace
      ensures Valid() && c in state.conns && OnlyMoved(old(state.conns[c]), state.conns[c])
      ensures var p, conn := old(state.conns[c].progress), state.conns[c];
              match handle
              case Ok(h) =>
                && conn.progress == Preparing(p.request, h)
                && conn.databases == old(state.conns[c].databases)[p.db := h]
              case Err(code) =>
                conn.progress.Idle? && conn.databases == old(state.conns[c].databases)
                && p.request in state.answers && state.answers[p.request] == SqlError(code)
      ensures Calls(trace, c) == old(Calls(trace, c)) + [if handle.Ok? then Open(c) else OpenFails(c, handle.error)]
    {
      Others(c);
      var e := Next(c);
      if e.Some? && e.value.OpenFails? {
        Take(e.value);
        return Err(e.value.error);
      }
      handle := Ok(state.store.nextHandle);
      Take(Open(c));
    }

    /** Where a handler is after a call of sqlite3_prepare_v2. */
    ghost predicate PrepareLeaves(rc: Prepared, p: Progress, conn: Conn)
      requires p.Preparing?
      reads this
    {
      match rc
      case PrepareIsBusy => conn.progress == p
      case PrepareError(code) => FailedWith(p.request, conn, code)
      case PrepareOk(None, _) => FailedWith(p.request, conn, SQLITE_MISUSE)
      case PrepareOk(Some(statement), columns) =>
        conn.progress == Stepping(p.request, p.handle, statement, columns, [])
    }

    /** One call of sqlite3_prepare_v2. */
    method SqlitePrepare(c: ConnId) returns (rc: Prepared)
      requires Valid() && c in state.conns && state.conns[c].progress.Preparing?
      modifies this
      ensures old(trace) <= trace
      ensures |script| <= |old(script)|
      ensures Valid() && c in state.conns && OnlyMoved(old(state.conns[c]), state.conns[c])
      ensures state.conns[c].databases == old(state.conns[c].databases)
      ensures PrepareLeaves(rc, old(state.conns[c].progress), state.conns[c])
      ensures rc.PrepareIsBusy? ==> |script| < |old(script)|
      ensures Calls(trace, c) == old(Calls(trace, c)) + [PrepareCall(c, rc)]
    {
      Others(c);
      var e := Next(c);
      if e.Some? && e.value.PrepareBusy? {
        Take(e.value);
        return PrepareIsBusy;
      }
      if e.Some? && e.value.Prepare? {
        Take(e.value);
        return PrepareOk(e.value.statement, e.value.columns);
      }
      var code := if e.Some? && e.value.PrepareFails? then e.value.error else SQLITE_IOERR;
      Take(PrepareFails(c, code));
      return PrepareError(code);
    }

    /** The request of a connection has been answered with this SQL error. */
    ghost predicate FailedWith(r: RequestId, conn: Conn, code: int)
      reads this
    {
      conn.progress.Idle? && r in state.answers && state.answers[r] == SqlError(code)
    }

    /** The step has this outcome. */
    method TakeOutcome(c: ConnId, e: Event) returns (rc: Stepped)
      requires Valid() && Enabled(state, e) && e.conn == c && (e.Row? || e.Done? || e.StepFails?)
      modifies this`state, this`trace
      ensures old(trace) <= trace && Valid() && c in state.conns
      ensures state.conns[c] == old(state.conns[c]).(progress := state.conns[c].progress)
      ensures SteppedTo(old(state.conns[c].progress), rc, state.conns[c].progress)
      ensures rc.StepRow? ==> e.Row?
      ensures StepCalls(old(Calls(trace, c)), Calls(trace, c), c, rc)
    {
      hide Step, StepCalls, TableOf;
      rc := if e.Row? then StepRow(e.tuple) else if e.Done? then StepDone else StepError(e.error);
      StatementStep(config, state, e);
      OneStep(Calls(trace, c), e, rc);
      Take(e);
    }

    /** sqlite3_step: may take the write lock, and yields a row, DONE or an error. */
    method SqliteStep(c: ConnId) returns (rc: Stepped)
      requires Valid() && c in state.conns && state.conns[c].progress.Stepping?
      modifies this
      ensures old(trace) <= trace
      ensures |script| <= |old(script)| && (rc.StepRow? ==> |script| < |old(script)|)
      ensures Valid() && c in state.conns && OnlyMoved(old(state.conns[c]), state.conns[c])
      ensures state.conns[c].databases == old(state.conns[c].databases)
      ensures SteppedTo(old(state.conns[c].progress), rc, state.conns[c].progress)
      ensures StepCalls(old(Calls(trace, c)), Calls(trace, c), c, rc)
    {
      hide Step, StepCalls, SteppedTo;
      ghost var conn := state.conns[c];
      ghost var before := Calls(trace, c);
      while true
        invariant Valid() && c in state.conns && state.conns[c] == conn
        invariant old(trace) <= trace && Calls(trace, c) == before
        invariant |script| <= |old(script)|
        decreases |script|
      {
        Others(c);
        var e := Next(c);
        if e.Some? && e.value.Lock? {
          StatementStep(config, state, e.value);
          Take(e.value);
        } else if e.Some? && (e.value.Row? || e.value.Done? || e.value.StepFails?) {
          rc := TakeOutcome(c, e.value);
          return;
        } else {
          RunningHandleIsOpen(config, trace, c);
          rc := TakeOutcome(c, StepFails(c, SQLITE_IOERR, false));
          return;
        }
      }
    }

    /** sqlite3_finalize, after which the handler has its response. */
    method SqliteFinalize(c: ConnId)
      requires Valid() && c in state.conns && state.conns[c].progress.Finalizing?
      modifies this
      ensures old(trace) <= trace
      ensures Valid() && c in state.conns && OnlyMoved(old(state.conns[c]), state.conns[c])
      ensures state.conns[c].databases == old(state.conns[c].databases) && state.conns[c].progress.Idle?
      ensures var p := old(state.conns[c].progress);
              p.request in state.answers && state.answers[p.request] == p.answer
      ensures Calls(trace, c) == old(Calls(trace, c)) + [Finalize(c)]
    {
      Others(c);
      Take(Finalize(c));
    }
  }

  // ----- SQLDatabase.h and SQLStatement.h -----

  class SQLStatement {
    const world: World
    const conn: ConnId
    const columns: seq<string>
    var row: seq<SqlValue>       // the current row, as the sqlite3_column functions read it

    constructor (world: World, conn: ConnId, columns: seq<string>)
      ensures this.world == world && this.conn == conn && this.columns == columns
    {
      this.world, this.conn, this.columns, row := world, conn, columns, [];
    }

    /** True for a row, false when the statement is done; anything else throws. */
    method NextRow() returns (more: Result<bool, int>)
      requires world.Valid() && conn in world.state.conns && world.state.conns[conn].progress.Stepping?
      modifies this, world
      ensures old(world.trace) <= world.trace
      ensures |world.script| <= |old(world.script)|
      ensures world.Valid() && conn in world.state.conns
      ensures OnlyMoved(old(world.state.conns[conn]), world.state.conns[conn])
      ensures world.state.conns[conn].databases == old(world.state.conns[conn].databases)
      ensures SteppedTo(old(world.state.conns[conn].progress), OutcomeOf(more, row), world.state.conns[conn].progress)
      ensures more == Ok(true) ==> |world.script| < |old(world.script)|
      ensures StepCalls(old(Calls(world.trace, conn)), Calls(world.trace, conn), conn, OutcomeOf(more, row))
    {
      var rc := world.SqliteStep(conn);
      match rc
      case StepRow(tuple) =>
        row := tuple;
        return Ok(true);
      case StepDone => return Ok(false);
      case StepError(code) => return Err(code);
    }
  }

  class SQLDatabase {
    const world: World
    const conn: ConnId
    const handle: HandleId

    constructor (world: World, conn: ConnId, handle: HandleId)
      ensures this.world == world && this.conn == conn && this.handle == handle
    {
      this.world, this.conn, this.handle := world, conn, handle;
    }

    /** The do-while loop: sqlite3_prepare_v2 is repeated while it reports BUSY. */
    method PrepareWhileBusy() returns (rc: Prepared)
      requires world.Valid() && conn in world.state.conns
      requires world.state.conns[conn].progress.Preparing? && world.state.conns[conn].progress.handle == handle
      modifies world
      ensures old(world.trace) <= world.trace && !rc.PrepareIsBusy?
      ensures world.Valid() && conn in world.state.conns
      ensures OnlyMoved(old(world.state.conns[conn]), world.state.conns[conn])
      ensures world.state.conns[conn].databases == old(world.state.conns[conn].databases)
      ensures world.PrepareLeaves(rc, old(world.state.conns[conn].progress), world.state.conns[conn])
      ensures PreparedAfterRetries(old(Calls(world.trace, conn)), Calls(world.trace, conn), conn)
      ensures LastIs(Calls(world.trace, conn), PrepareCall(conn, rc))
    {
      hide PreparedAfterRetries, PrepareCall;
      ghost var start := Calls(world.trace, conn);
      rc := world.SqlitePrepare(conn);
      FirstTry(start, rc, conn);
      while rc.PrepareIsBusy?
        invariant old(world.trace) <= world.trace
        invariant world.Valid() && conn in world.state.conns
        invariant OnlyMoved(old(world.state.conns[conn]), world.state.conns[conn])
        invariant world.state.conns[conn].databases == old(world.state.conns[conn].databases)
        invariant world.PrepareLeaves(rc, old(world.state.conns[conn].progress), world.state.conns[conn])
        invariant PreparedAfterRetries(start, Calls(world.trace, conn), conn)
        invariant LastIs(Calls(world.trace, conn), PrepareCall(conn, rc))
        decreases |world.script|, rc.PrepareIsBusy?
      {
        ghost var calls := Calls(world.trace, conn);
        rc := world.SqlitePrepare(conn);
        AnotherTry(start, calls, rc, conn);
      }
    }

    /** The constructor of SQLStatement: any error is thrown, and a query without a statement is MISUSE. */
    method Prepare() returns (statement: Result<SQLStatement, int>)
      requires world.Valid() && conn in world.state.conns
      requires world.state.conns[conn].progress.Preparing? && world.state.conns[conn].progress.handle == handle
      modifies world
      ensures old(world.trace) <= world.trace
      ensures world.Valid() && conn in world.state.conns
      ensures OnlyMoved(old(world.state.conns[conn]), world.state.conns[conn])
      ensures world.state.conns[conn].databases == old(world.state.conns[conn].databases)
      ensures var p, conn' := old(world.state.conns[conn].progress), world.state.conns[conn];
              match statement
              case Ok(s) =>
                && fresh(s) && s.world == world && s.conn == conn
                && conn'.progress.Stepping? && conn'.progress.request == p.request && conn'.progress.handle == handle
                && conn'.progress.columns == s.columns && conn'.progress.tuples == []
              case Err(code) => world.FailedWith(p.request, conn', code)
      ensures PreparedAfterRetries(old(Calls(world.trace, conn)), Calls(world.trace, conn), conn)
      ensures var last := Calls(world.trace, conn)[|Calls(world.trace, conn)| - 1];
              match statement
              case Ok(s) => last.Prepare? && last.statement.Some? && last.columns == s.columns
              case Err(code) => if last.Prepare? then last.statement.None? && code == 21
                                else last == PrepareFails(conn, code)
    {
      var rc := PrepareWhileBusy();
      match rc
      case PrepareError(code) => return Err(code);
      case PrepareOk(None, _) => return Err(SQLITE_MISUSE);
      case PrepareOk(Some(_), columns) =>
        var s := new SQLStatement(world, conn, columns);
        return Ok(s);
    }
  }

  // ----- RequestHandler.cpp -----

  class RequestHandler {
    const world: World
    const conn: ConnId
    var databases: map<string, SQLDatabase>
    var authenticated: bool

    constructor (world: World, conn: ConnId)
      requires world.Valid() && conn !in world.state.conns
      modifies world
      ensures Valid() && this.world == world && this.conn == conn && world.state.conns[conn].progress.Idle?
    {
      this.world, this.conn := world, conn;
      databases, authenticated := map[], false;
      new;
      world.Take(Connect(conn));
    }

    /** The handler's fields are what the machine knows about its connection. */
    ghost predicate Matches(c: Conn)
      reads this
    {
      && c.authenticated == authenticated && c.databases.Keys == databases.Keys
      && forall db :: db in databases ==>
           databases[db].world == world && databases[db].conn == conn && databases[db].handle == c.databases[db]
    }

    ghost predicate Valid()
      reads this, world
    {
      world.Valid() && conn in world.state.conns && Matches(world.state.conns[conn])
    }

    /** Request r has been answered, and the connection is idle again. */
    ghost predicate Finished(r: RequestId, answer: Answer)
      reads this, world
    {
      && Valid() && world.state.conns[conn].progress.Idle?
      && r in world.state.answers && world.state.answers[r] == answer
    }

    /** The handler may take request r now. */
    ghost predicate Ready(r: RequestId, req: Request)
      reads this, world
    {
      Valid() && Enabled(world.state, Receive(conn, r, req))
    }

    method HandleRequest(r: RequestId, req: Request) returns (answer: Answer)
      requires Valid() && world.state.conns[conn].progress.Idle? && world.Reserved(conn, r) && TextFields(req)
      modifies this, world
      ensures old(world.trace) <= world.trace && Receive(conn, r, req) in world.trace
      ensures ReceivedFirst(old(Calls(world.trace, conn)), Calls(world.trace, conn), Receive(conn, r, req))
      ensures Finished(r, answer)
      ensures var same := world.config.password != "" && req.Request? && req.auth == Field.Text(world.config.password);
              (answer == AuthResult(true) <==> same) && authenticated == (old(authenticated) || same)
    {
      hide Step;
      world.Others(conn);
      if req.Malformed? {
        answer := GenericError(InvalidFormat);
        AnswerAtOnce(r, req, answer);
        return;
      }
      if world.config.password != "" {
        if req.auth.Text? {
          if req.auth.text == world.config.password {
            answer := AuthResult(true);
            Authenticate(r, req);
            return;
          }
        }
        if !authenticated {
          answer := AuthResult(false);
          AnswerAtOnce(r, req, answer);
          return;
        }
      }
      answer := HandleCommand(r, req);
    }

    /** The correct password. */
    method Authenticate(r: RequestId, req: Request)
      requires Ready(r, req) && CorrectPassword(world.config, req)
      modifies this, world
      ensures world.trace == old(world.trace) + [Receive(conn, r, req)] && world.state.store == old(world.state.store)
      ensures Finished(r, AuthResult(true)) && authenticated
    {
      authenticated := true;
      world.Take(Receive(conn, r, req));
    }

    /** The dispatch behind the authentication gate. */
    method HandleCommand(r: RequestId, req: Request) returns (answer: Answer)
      requires Ready(r, req) && req.Request?
      requires Dispatched(world.config, authenticated, req) == Served(world.config, req)
      modifies this`databases, world
      ensures old(world.trace) <= world.trace && Receive(conn, r, req) in world.trace
      ensures ReceivedFirst(old(Calls(world.trace, conn)), Calls(world.trace, conn), Receive(conn, r, req))
      ensures Finished(r, answer) && !answer.AuthResult?
      ensures req.cmd.Absent? ==> answer == GenericError(NoCommandSpecified)
      ensures req.cmd.Text? && Spells(req.cmd.text, "list", "LIST") ==>
                && answer.Listing?
                && answer.names == set name | name in old(world.state.store.folder) && !IsSidecar(name)
      ensures req.cmd.Text? && !Spells(req.cmd.text, "query", "QUERY") && !Spells(req.cmd.text, "list", "LIST")
              && !Spells(req.cmd.text, "delete_db", "DELETE_DB")
              ==> answer == GenericError(UnknownCommand)
      ensures req.cmd.Text? && Spells(req.cmd.text, "query", "QUERY") ==>
                var refusal := QueryRefusal(world.config, req);
                if refusal.Some? then answer == GenericError(refusal.value)
                else EndsWithRows(Calls(world.trace, conn), conn, answer)
      ensures req.cmd.Text? && Spells(req.cmd.text, "delete_db", "DELETE_DB") ==>
                DeleteOutcome(world.config, old(world.state), req, answer, old(databases), databases)
    {
      if req.cmd.Text? {
        CommandWords(req.cmd.text);
        WordsDiffer(req.cmd.text);
      }
      hide Step, Dispatched, Spells, EqualsIgnoringCase, QueryRefusal, DeleteOutcome, Calls, Run;
      if req.cmd.Absent? {
        answer := GenericError(NoCommandSpecified);
        AnswerAtOnce(r, req, answer);
        return;
      }
      var cmd := req.cmd.text;
      if EqualsIgnoringCase(cmd, "QUERY") {
        answer := HandleQuery(r, req);
      } else if EqualsIgnoringCase(cmd, "LIST") {
        answer := HandleList(r, req);
      } else if EqualsIgnoringCase(cmd, "DELETE_DB") {
        answer := HandleDeleteDb(r, req);
      } else {
        answer := GenericError(UnknownCommand);
        AnswerAtOnce(r, req, answer);
      }
    }

    method HandleQuery(r: RequestId, req: Request) returns (answer: Answer)
      requires Ready(r, req) && req.Request? && req.cmd.Text? && EqualsIgnoringCase(req.cmd.text, "QUERY")
      requires Dispatched(world.config, authenticated, req) == Served(world.config, req)
      modifies this`databases, world
      ensures old(world.trace) <= world.trace && Receive(conn, r, req) in world.trace
      ensures ReceivedFirst(old(Calls(world.trace, conn)), Calls(world.trace, conn), Receive(conn, r, req))
      ensures Finished(r, answer)
      ensures var refusal := QueryRefusal(world.config, req);
              if refusal.Some? then
                && answer == GenericError(refusal.value) && databases == old(databases)
                && world.trace == old(world.trace) + [Receive(conn, r, req)]
                && world.state.store == old(world.state.store)
              else EndsWithRows(Calls(world.trace, conn), conn, answer)
    {
      DispatchOfQuery(world.config, req);
      hide Dispatched, Served, Names.Child, Run, Calls;
      if req.db.Absent? {
        answer := GenericError(NoDatabaseSpecified);
        AnswerAtOnce(r, req, answer);
        return;
      }
      if req.query.Absent? {
        answer := GenericError(ErrorReadingFromClient);
        AnswerAtOnce(r, req, answer);
        return;
      }
      var databaseName := req.db.text;
      if Names.Child(world.config.folder, databaseName).None? {
        answer := GenericError(NoDatabaseSpecified);
        AnswerAtOnce(r, req, answer);
        return;
      }
      answer := TakeQuery(r, req, databaseName);
    }

    /** A QUERY that is not refused. */
    method TakeQuery(r: RequestId, req: Request, databaseName: string) returns (answer: Answer)
      requires Ready(r, req) && Dispatched(world.config, authenticated, req).RunQuery?
      requires Dispatched(world.config, authenticated, req).db == databaseName
      modifies this`databases, world
      ensures old(world.trace) <= world.trace && Receive(conn, r, req) in world.trace
      ensures ReceivedFirst(old(Calls(world.trace, conn)), Calls(world.trace, conn), Receive(conn, r, req))
      ensures Finished(r, answer) && EndsWithRows(Calls(world.trace, conn), conn, answer)
    {
      QueryOpens(world.config, world.state, conn, r, req);
      hide Step, Dispatched, Calls, Run, NothingReceived, EndsWithRows;
      world.Take(Receive(conn, r, req));
      ghost var taken := world.trace;
      answer := RunQuery(r, databaseName);
      assert world.trace[..|taken|][|taken| - 1] == Receive(conn, r, req);
    }

    /** The try block of handle_query; an SQLException becomes an error answer. */
    method RunQuery(r: RequestId, databaseName: string) returns (answer: Answer)
      requires Valid() && world.state.conns[conn].progress.Opening?
      requires world.state.conns[conn].progress.request == r && world.state.conns[conn].progress.db == databaseName
      modifies this`databases, world
      ensures old(world.trace) <= world.trace
      ensures Finished(r, answer)
      ensures EndsWithRows(Calls(world.trace, conn), conn, answer)
      ensures NothingReceived(old(Calls(world.trace, conn)), Calls(world.trace, conn))
    {
      hide PreparedAfterRetries, SteppedThrough, NothingReceived, Calls, Run, Step, Enabled, PrepareCall, TableOf;
      ghost var start := Calls(world.trace, conn);
      var database := GetDatabaseConnection(r, databaseName);
      ghost var preparing := Calls(world.trace, conn);
      OneMoreCall(start, if database.Ok? then Open(conn) else OpenFails(conn, database.error));
      if database.Err? {
        return SqlError(database.error);
      }
      var prepared := database.value.Prepare();
      ghost var stepping := Calls(world.trace, conn);
      PreparingReceivesNothing(preparing, stepping, conn);
      NothingReceivedInBetween(start, preparing, stepping);
      if prepared.Err? {
        return SqlError(prepared.error);
      }
      ghost var tuples;
      answer, tuples := Rowwise(r, prepared.value);
      RowsAreLast(stepping, Calls(world.trace, conn), conn, tuples, answer);
      SteppingReceivesNothing(stepping, Calls(world.trace, conn), conn, tuples, answer);
      NothingReceivedInBetween(start, stepping, Calls(world.trace, conn));
    }

    /** The row loop of handle_query. */
    method Rowwise(r: RequestId, statement: SQLStatement) returns (answer: Answer, ghost tuples: seq<seq<SqlValue>>)
      requires Valid() && statement.world == world && statement.conn == conn
      requires var p := world.state.conns[conn].progress;
               p.Stepping? && p.request == r && p.columns == statement.columns && p.tuples == []
      modifies world, statement
      ensures old(world.trace) <= world.trace
      ensures Finished(r, answer)
      ensures SteppedThrough(old(Calls(world.trace, conn)), Calls(world.trace, conn), conn, tuples, answer)
      ensures Rectangular(statement.columns, tuples)
      ensures answer.Rows? ==> answer == Rows(Values.Answer(statement.columns, tuples))
      ensures answer.Rows? ==> Values.IsTableOf(answer.result, statement.columns, tuples)
    {
      hide StepCalls, SteppedThrough, StepLeaves, Values.Answer, Values.IsTableOf;
      var columnNames := ColumnNames(statement);
      ghost var start := Calls(world.trace, conn);
      var rowsData, more;
      rowsData, more, tuples := StepRows(r, statement, columnNames);
      answer := if more.Err? then SqlError(more.error) else Rows(QueryResult(columnNames, rowsData));
      RowsEnd(start, Calls(world.trace, conn), conn, columnNames, tuples, more, statement.row, answer);
      LeftFinalizing(r, columnNames, tuples, statement.row, more, world.state.conns[conn].progress);
      Values.AnswerIsTable(columnNames, tuples);
      world.SqliteFinalize(conn);
    }

    /** The while loop over the rows. */
    method StepRows(r: RequestId, statement: SQLStatement, columnNames: seq<string>)
      returns (rowsData: seq<Values.Row>, more: Result<bool, int>, ghost tuples: seq<seq<SqlValue>>)
      requires Valid() && statement.world == world && statement.conn == conn
      requires var p := world.state.conns[conn].progress;
               p.Stepping? && p.request == r && p.columns == columnNames && p.tuples == []
      modifies world, statement
      ensures old(world.trace) <= world.trace
      ensures Valid() && more != Ok(true) && Rectangular(columnNames, tuples)
      ensures rowsData == Values.Answer(columnNames, tuples).rows
      ensures StepCalls(old(Calls(world.trace, conn)) + RowEvents(conn, tuples), Calls(world.trace, conn), conn,
                        OutcomeOf(more, statement.row))
      ensures StepLeaves(r, columnNames, tuples, statement.row, more, world.state.conns[conn].progress)
    {
      hide RowEvents, StepCalls, Values.Answer, RowObject, StepLeaves, SteppedTo;
      rowsData, tuples := [], [];
      ghost var start := Calls(world.trace, conn);
      NoRowsYet(start, conn, columnNames);
      ghost var p := world.state.conns[conn].progress;
      more := statement.NextRow();
      StepLeavesNext(r, columnNames, tuples, p, more, statement.row, world.state.conns[conn].progress);
      while more == Ok(true)
        invariant old(world.trace) <= world.trace
        invariant Valid() && Rectangular(columnNames, tuples)
        invariant rowsData == Values.Answer(columnNames, tuples).rows
        invariant StepCalls(start + RowEvents(conn, tuples), Calls(world.trace, conn), conn,
                            OutcomeOf(more, statement.row))
        invariant StepLeaves(r, columnNames, tuples, statement.row, more, world.state.conns[conn].progress)
        decreases |world.script|, more == Ok(true)
      {
        p := world.state.conns[conn].progress;
        StillStepping(r, columnNames, tuples, statement.row, p);
        var rowData := BuildRow(columnNames, statement.row);
        AnswerAppend(columnNames, tuples, statement.row);
        AnotherRow(start, Calls(world.trace, conn), conn, tuples, statement.row);
        tuples := tuples + [statement.row];
        rowsData := rowsData + [rowData];
        more := statement.NextRow();
        StepLeavesNext(r, columnNames, tuples, p, more, statement.row, world.state.conns[conn].progress);
      }
    }

    /** The column names in order. */
    method ColumnNames(statement: SQLStatement) returns (columnNames: seq<string>)
      ensures columnNames == statement.columns
    {
      columnNames := [];
      for i := 0 to |statement.columns|
        invariant columnNames == statement.columns[..i]
      {
        columnNames := columnNames + [statement.columns[i]];
      }
    }

    method HandleList(r: RequestId, req: Request) returns (answer: Answer)
      requires Ready(r, req) && Dispatched(world.config, authenticated, req).ListFolder?
      modifies world
      ensures world.trace == old(world.trace) + [Receive(conn, r, req)] && world.state.store == old(world.state.store)
      ensures Finished(r, answer)
      ensures answer == Listing(set name | name in old(world.state.store.folder) && !IsSidecar(name))
    {
      var names: set<string> := {};
      var rest := world.state.store.folder.Keys;
      while rest != {}
        invariant rest <= world.state.store.folder.Keys
        invariant names == set n | n in world.state.store.folder && n !in rest && !IsSidecar(n)
        decreases |rest|
      {
        var filename :| filename in rest;
        rest := rest - {filename};
        if !IsSidecar(filename) {
          names := names + {filename};
        }
      }
      assert names == FolderListing(world.state.store);
      world.Take(Receive(conn, r, req));
      return Listing(names);
    }

    /** Removes the file, if the name leads to one, and then the handle cached under this string. */
    method HandleDeleteDb(r: RequestId, req: Request) returns (answer: Answer)
      requires Ready(r, req) && req.Request? && req.cmd.Text? && EqualsIgnoringCase(req.cmd.text, "DELETE_DB")
      requires Dispatched(world.config, authenticated, req) == Served(world.config, req)
      modifies this`databases, world
      ensures world.trace == old(world.trace) + [Receive(conn, r, req)]
      ensures Finished(r, answer)
      ensures DeleteOutcome(world.config, old(world.state), req, answer, old(databases), databases)
      ensures world.state.store.folder.Keys
              == old(world.state.store.folder.Keys)
                 - (if answer == Deleted(true) then {Names.Child(world.config.folder, req.db.text).value} else {})
    {
      DispatchOfDelete(world.config, req);
      hide Dispatched, Served, Names.Child, Names.Reaches;
      if req.db.Absent? || Names.Child(world.config.folder, req.db.text).None? {
        answer := GenericError(NoDatabaseSpecified);
        AnswerAtOnce(r, req, answer);
      } else if !Names.Reaches(world.config.directories, world.config.folder, req.db.text) {
        answer := Deleted(false);
        AnswerAtOnce(r, req, answer);
      } else {
        var result := Delete(r, req, req.db.text, Names.Child(world.config.folder, req.db.text).value);
        answer := Deleted(result);
      }
    }

    /** A response that takes no more than the request itself. */
    method AnswerAtOnce(r: RequestId, req: Request, answer: Answer)
      requires Ready(r, req) && Dispatched(world.config, authenticated, req) == Reply(answer)
      modifies world
      ensures world.trace == old(world.trace) + [Receive(conn, r, req)] && world.state.store == old(world.state.store)
      ensures Finished(r, answer)
    {
      ReplyAnswered(world.config, world.state, conn, r, req, answer);
      hide Step, Dispatched;
      world.Take(Receive(conn, r, req));
    }

    /** Removes the file and, when that worked, the handle cached under this string. */
    method Delete(r: RequestId, req: Request, databaseName: string, name: string) returns (result: bool)
      requires Ready(r, req) && Dispatched(world.config, authenticated, req) == DeleteDb(databaseName, name)
      modifies this`databases, world
      ensures world.trace == old(world.trace) + [Receive(conn, r, req)]
      ensures result == old(name in world.state.store.folder) && Finished(r, Deleted(result))
      ensures databases == if result then old(databases) - {databaseName} else old(databases)
      ensures world.state.store.folder.Keys == old(world.state.store.folder.Keys) - {name}
    {
      DeletionAnswered(world.config, world.state, conn, r, req, databaseName, name);
      hide Step, Dispatched;
      result := name in world.state.store.folder;
      world.Take(Receive(conn, r, req));
      if result {
        databases := databases - {databaseName};
      }
    }

    method GetDatabaseConnection(r: RequestId, databaseName: string) returns (database: Result<SQLDatabase, int>)
      requires Valid() && world.state.conns[conn].progress.Opening?
      requires world.state.conns[conn].progress.request == r && world.state.conns[conn].progress.db == databaseName
      modifies this`databases, world
      ensures old(world.trace) <= world.trace
      ensures Calls(world.trace, conn)
              == old(Calls(world.trace, conn)) + [if database.Ok? then Open(conn) else OpenFails(conn, database.error)]
      ensures Valid()
      ensures match database
              case Ok(d) =>
                && databaseName in databases && databases[databaseName] == d
                && world.state.conns[conn].progress == Preparing(r, d.handle)
                && (databaseName in old(databases) ==> d == old(databases)[databaseName])
              case Err(code) => Finished(r, SqlError(code)) && databases == old(databases)
    {
      if databaseName in databases {
        world.Take(Open(conn));
        return Ok(databases[databaseName]);
      }
      var handle := world.SqliteOpen(conn);
      match handle
      case Err(code) => return Err(code);
      case Ok(h) =>
        var d := new SQLDatabase(world, conn, h);
        databases := databases[databaseName := d];
        return Ok(d);
    }

    /** The connection ends: all handles are closed. */
    method Destroy()
      requires Valid() && world.state.conns[conn].progress.Idle?
      modifies this, world
      ensures world.Valid() && conn !in world.state.conns && databases == map[]
    {
      world.Take(Disconnect(conn));
      databases := map[];
    }
  }

  lemma DispatchOfQuery(config: Config, req: Request)
    requires req.Request? && req.cmd.Text? && EqualsIgnoringCase(req.cmd.text, "QUERY")
    ensures var refusal := QueryRefusal(config, req);
            Served(config, req) ==
            if refusal.Some? then Reply(GenericError(refusal.value))
            else RunQuery(req.db.text, Names.Child(config.folder, req.db.text).value)
  {
  }

  /** What a QUERY that is not refused makes of its connection. */
  lemma QueryOpens(config: Config, st: Server, c: ConnId, r: RequestId, req: Request)
    requires Enabled(st, Receive(c, r, req)) && Dispatched(config, st.conns[c].authenticated, req).RunQuery?
    ensures var st' := Step(config, st, Receive(c, r, req));
            var query := Dispatched(config, st.conns[c].authenticated, req);
            c in st'.conns && st'.conns[c] == st.conns[c].(progress := Opening(r, query.db, query.name))
  {
    hide Dispatched;
  }

  lemma DeleteIsNoQuery(cmd: string)
    requires EqualsIgnoringCase(cmd, "DELETE_DB")
    ensures !EqualsIgnoringCase(cmd, "QUERY") && !EqualsIgnoringCase(cmd, "LIST")
  {
  }

  lemma DispatchOfDelete(config: Config, req: Request)
    requires req.Request? && req.cmd.Text? && EqualsIgnoringCase(req.cmd.text, "DELETE_DB")
    ensures Served(config, req) ==
            if !req.db.Text? || Names.Child(config.folder, req.db.text).None?
            then Reply(GenericError(NoDatabaseSpecified))
            else if !Names.Reaches(config.directories, config.folder, req.db.text) then Reply(Deleted(false))
            else DeleteDb(req.db.text, Names.Child(config.folder, req.db.text).value)
  {
    DeleteIsNoQuery(req.cmd.text);
  }

  /** Why a QUERY is refused, if it is. */
  function QueryRefusal(config: Config, req: Request): Option<ErrorCode>
    requires req.Request?
  {
    if !req.db.Text? then Some(NoDatabaseSpecified)
    else if !req.query.Text? then Some(ErrorReadingFromClient)
    else if Names.Child(config.folder, req.db.text).None? then Some(NoDatabaseSpecified)
    else None
  }

  /** What the response to a DELETE_DB says, and which handles stay cached. */
  ghost predicate DeleteOutcome<T>(
    config: Config, st: Server, req: Request, answer: Answer, before: map<string, T>, after: map<string, T>)
    requires req.Request?
  {
    if !req.db.Text? || Names.Child(config.folder, req.db.text).None? then
      answer == GenericError(NoDatabaseSpecified) && after == before
    else
      var removed := Names.Reaches(config.directories, config.folder, req.db.text)
                     && Names.Child(config.folder, req.db.text).value in st.store.folder;
      answer == Deleted(removed) && after == if removed then before - {req.db.text} else before
  }

  /** A request that is answered at once. */
  lemma ReplyAnswered(config: Config, st: Server, c: ConnId, r: RequestId, req: Request, answer: Answer)
    requires Enabled(st, Receive(c, r, req)) && Dispatched(config, st.conns[c].authenticated, req) == Reply(answer)
    ensures var st' := Step(config, st, Receive(c, r, req));
            && c in st'.conns && st'.conns[c] == st.conns[c].(progress := Idle)
            && r in st'.answers && st'.answers[r] == answer && st'.store == st.store
  {
    hide Dispatched;
  }

  lemma AnswerAppend(columns: seq<string>, tuples: seq<seq<SqlValue>>, tuple: seq<SqlValue>)
    requires Rectangular(columns, tuples) && |tuple| == |columns|
    ensures Rectangular(columns, tuples + [tuple])
    ensures Values.Answer(columns, tuples + [tuple]).rows
            == Values.Answer(columns, tuples).rows + [RowObject(columns, tuple)]
  {
  }

  ghost predicate OnlyMoved(conn: Conn, conn': Conn) {
    conn'.authenticated == conn.authenticated
  }

  lemma {:induction false} RunAppend(config: Config, st: Server, events: seq<Event>, e: Event)
    requires Run(config, st, events).Some? && Enabled(Run(config, st, events).value, e)
    ensures Run(config, st, events + [e]) == Some(Step(config, Run(config, st, events).value, e))
    decreases |events|
  {
    hide Step, Enabled;
    if events == [] {
      assert ([] + [e])[0] == e && ([] + [e])[1..] == [];
      assert Run(config, Step(config, st, e), []) == Some(Step(config, st, e));
    } else {
      assert (events + [e])[1..] == events[1..] + [e];
      RunAppend(config, Step(config, st, events[0]), events[1..], e);
    }
  }

  /** What a DELETE_DB leaves of its connection, and its answer. */
  lemma DeletionAnswered(config: Config, st: Server, c: ConnId, r: RequestId, req: Request, db: string, name: string)
    requires Enabled(st, Receive(c, r, req)) && Dispatched(config, st.conns[c].authenticated, req) == DeleteDb(db, name)
    ensures var st' := Step(config, st, Receive(c, r, req));
            var deleted := name in st.store.folder;
            && c in st'.conns && st'.conns[c].progress.Idle?
            && st'.conns[c].authenticated == st.conns[c].authenticated
            && st'.conns[c].databases == (if deleted then st.conns[c].databases - {db} else st.conns[c].databases)
            && r in st'.answers && st'.answers[r] == Deleted(deleted)
            && st'.store.folder.Keys == st.store.folder.Keys - {name}
  {
    RemovedKeys(st.store, name);
    hide Removed, Dispatched;
  }

  lemma RemovedKeys(s: Store, name: string)
    ensures Removed(s, name).folder.Keys == s.folder.Keys - {name}
  {
  }

  lemma OthersLeaveConn(config: Config, st: Server, e: Event, c: ConnId)
    requires Enabled(st, e) && e.conn != c && c in st.conns
    ensures var st' := Step(config, st, e);
            && c in st'.conns && st'.conns[c] == st.conns[c]
            && st'.received == st.received + (if e.Receive? then {e.request} else {})
  {
    hide Dispatched, Removed, Closed, Locked, Finished, Failed, Opened, CanLock, CanFinish, TableOf;
  }

  lemma RunningHandleIsOpen(config: Config, events: seq<Event>, c: ConnId)
    requires Run(config, START, events).Some?
    requires var st := Run(config, START, events).value; c in st.conns && st.conns[c].progress.Stepping?
    ensures var s, p := Run(config, START, events).value.store, Run(config, START, events).value.conns[c].progress;
            p.handle in s.handles && s.handles[p.handle].file in s.files
  {
    hide Run;
    StartInv();
    RunKeepsInv(config, START, events);
  }
}
