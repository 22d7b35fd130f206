/**
 * The server as a state machine over all its connections (RequestHandler.cpp). Every client has
 * its own handler with an authentication flag and a cache of database handles; a QUERY takes
 * several steps (open, prepare, rows, done or error, finalise), between which the handlers of
 * other connections run. SQLite decides how its calls turn out.
 */
module Server {
  import opened Wrappers
  import opened Values
  import opened Store
  import Names

  /** `directories` are those that exist; the server creates and removes files only. */
  datatype Config = Config(password: string, folder: Names.Path, directories: set<Names.Path>)

  // ----- Requests and answers -----

  /** A member of the request object, as far as the handler looks at it. */
  datatype Field = Absent | NotText | Text(text: string)

  /** A request after parse_request. */
  datatype Request = Malformed | Request(auth: Field, cmd: Field, db: Field, query: Field)

  datatype ErrorCode =
    | InvalidFormat
    | NoCommandSpecified
    | UnknownCommand
    | NoDatabaseSpecified
    | ErrorReadingFromClient

  datatype Answer =
    | AuthResult(ok: bool)
    | GenericError(code: ErrorCode)
    | Listing(names: set<string>)
    | Deleted(ok: bool)
    | Rows(result: QueryResult)
    | SqlError(error: int)

  const SQLITE_MISUSE: int := 21

  function ToUpper(c: char): char {
    if 'a' <= c <= 'z' then (c as int - 32) as char else c
  }

  /** boost::iequals */
  predicate EqualsIgnoringCase(a: string, b: string) {
    |a| == |b| && forall i :: 0 <= i < |a| ==> ToUpper(a[i]) == ToUpper(b[i])
  }

  predicate EndsWith(s: string, suffix: string) {
    |s| >= |suffix| && s[|s| - |suffix|..] == suffix
  }

  predicate IsSidecar(name: string) {
    EndsWith(name, "-wal") || EndsWith(name, "-shm") || EndsWith(name, "-journal")
  }

  /** What handle_request does with a request: the authentication gate and the dispatch. */
  datatype Dispatch =
    | Reply(answer: Answer)      // answered without touching anything
    | Authenticate               // the correct password
    | RunQuery(db: string, name: string)
    | ListFolder
    | DeleteDb(db: string, name: string)

  predicate CorrectPassword(config: Config, req: Request) {
    config.password != "" && req.Request? && req.auth == Field.Text(config.password)
  }

  function Dispatched(config: Config, authenticated: bool, req: Request): Dispatch {
    if req.Malformed? then Reply(GenericError(InvalidFormat))
    else if CorrectPassword(config, req) then Authenticate
    else if config.password != "" && !authenticated then Reply(AuthResult(false))
    else Served(config, req)
  }

  /** The dispatch behind the gate: all there is without a password. */
  function Served(config: Config, req: Request): Dispatch
    requires req.Request?
  {
    if !req.cmd.Text? then Reply(GenericError(NoCommandSpecified))
    else if EqualsIgnoringCase(req.cmd.text, "QUERY") then
      if !req.db.Text? then Reply(GenericError(NoDatabaseSpecified))
      else if !req.query.Text? then Reply(GenericError(ErrorReadingFromClient))
      else
        var name := Names.Child(config.folder, req.db.text);
        if name.None? then Reply(GenericError(NoDatabaseSpecified)) else RunQuery(req.db.text, name.value)
    else if EqualsIgnoringCase(req.cmd.text, "LIST") then ListFolder
    else if EqualsIgnoringCase(req.cmd.text, "DELETE_DB") then
      if !req.db.Text? then Reply(GenericError(NoDatabaseSpecified))
      else
        var name := Names.Child(config.folder, req.db.text);
        if name.None? then Reply(GenericError(NoDatabaseSpecified))
        else if !Names.Reaches(config.directories, config.folder, req.db.text) then Reply(Deleted(false))
        else DeleteDb(req.db.text, name.value)
    else Reply(GenericError(UnknownCommand))
  }

  // ----- States -----

  /** Where the handler of a connection is. */
  datatype Progress =
    | Idle
    | Opening(request: RequestId, db: string, name: string)
    | Preparing(request: RequestId, handle: HandleId)
    | Stepping(request: RequestId, handle: HandleId, statement: Statement,
               columns: seq<string>, tuples: seq<seq<SqlValue>>)
    | Finalizing(request: RequestId, handle: HandleId, answer: Answer)

  datatype Conn = Conn(authenticated: bool, databases: map<string, HandleId>, progress: Progress)

  datatype Server = Server(
    store: Store,
    conns: map<ConnId, Conn>,
    received: set<RequestId>,
    answers: map<RequestId, Answer>)

  const START := Server(EMPTY_STORE, map[], {}, map[])

  // ----- Steps -----

  datatype Event =
    | Connect(conn: ConnId)
    | Disconnect(conn: ConnId)
    | Receive(conn: ConnId, request: RequestId, content: Request)
    | Open(conn: ConnId)
    | OpenFails(conn: ConnId, error: int)
    | PrepareBusy(conn: ConnId)
    | PrepareFails(conn: ConnId, error: int)
    | Prepare(conn: ConnId, statement: Option<Statement>, columns: seq<string>)
    | Lock(conn: ConnId)
    | Row(conn: ConnId, tuple: seq<SqlValue>)
    | Done(conn: ConnId)
    | StepFails(conn: ConnId, error: int, rollback: bool)
    | Finalize(conn: ConnId)

  /**
   * No string member of a served request has another type; those raise an exception the server
   * does not catch. A database name holds no NUL, where the path that is opened would end.
   */
  predicate TextFields(req: Request) {
    req.Request? ==>
      && !req.cmd.NotText? && !req.db.NotText? && !req.query.NotText?
      && (req.db.Text? ==> '\0' !in req.db.text)
  }

  predicate Enabled(st: Server, e: Event) {
    if e.Connect? then e.conn !in st.conns else
    && e.conn in st.conns
    && var conn := st.conns[e.conn];
       var p := conn.progress;
       match e
       case Connect(_) => false
       case Disconnect(_) => p.Idle?
       case Receive(_, r, req) => p.Idle? && r !in st.received && TextFields(req)
       case Open(_) => p.Opening?
       case OpenFails(_, _) => p.Opening? && p.db !in conn.databases
       case PrepareBusy(_) => p.Preparing?
       case PrepareFails(_, _) => p.Preparing?
       case Prepare(_, _, _) => p.Preparing?
       case Lock(_) => p.Stepping? && CanLock(st.store, p.handle, p.statement)
       case Row(_, tuple) =>
         p.Stepping? && |tuple| == |p.columns|
         && (NeedsLock(p.statement) ==> p.handle in st.store.handles && st.store.handles[p.handle].work.Some?)
       case Done(_) => p.Stepping? && CanFinish(st.store, p.handle, p.statement)
       case StepFails(_, _, _) =>
         p.Stepping? && p.handle in st.store.handles && st.store.handles[p.handle].file in st.store.files
       case Finalize(_) => p.Finalizing?
  }

  function SetProgress(st: Server, c: ConnId, p: Progress): Server
    requires c in st.conns
  {
    st.(conns := st.conns[c := st.conns[c].(progress := p)])
  }

  /** The handler returns its response. */
  function Answered(st: Server, c: ConnId, r: RequestId, answer: Answer): Server
    requires c in st.conns
  {
    SetProgress(st, c, Idle).(answers := st.answers[r := answer])
  }

  /** LIST: the names in the folder without SQLite's sidecar files. */
  function FolderListing(s: Store): set<string> {
    set name | name in s.folder && !IsSidecar(name)
  }

  /** DELETE_DB: remove the file; only when that worked, drop the handle cached under this string. */
  function DeletedDb(st: Server, c: ConnId, db: string, name: string): Server
    requires c in st.conns
  {
    if name !in st.store.folder then st else
    var st' := st.(store := Removed(st.store, name));
    var databases := st.conns[c].databases;
    if db !in databases then st' else
    st'.(store := Closed(st'.store, {databases[db]}),
         conns := st.conns[c := st.conns[c].(databases := databases - {db})])
  }

  function ReceiveStep(config: Config, st: Server, c: ConnId, r: RequestId, req: Request): Server
    requires c in st.conns
  {
    var st' := st.(received := st.received + {r});
    match Dispatched(config, st.conns[c].authenticated, req)
    case Reply(answer) => Answered(st', c, r, answer)
    case Authenticate =>
      Answered(st'.(conns := st.conns[c := st.conns[c].(authenticated := true)]), c, r, AuthResult(true))
    case RunQuery(db, name) => SetProgress(st', c, Opening(r, db, name))
    case ListFolder => Answered(st', c, r, Listing(FolderListing(st.store)))
    case DeleteDb(db, name) => Answered(DeletedDb(st', c, db, name), c, r, Deleted(name in st.store.folder))
  }

  /** get_database_connection: the cached handle of this string, or a new one that is cached. */
  function OpenStep(st: Server, c: ConnId): Server
    requires c in st.conns && st.conns[c].progress.Opening?
  {
    var conn := st.conns[c];
    var Opening(r, db, name) := conn.progress;
    if db in conn.databases then SetProgress(st, c, Preparing(r, conn.databases[db])) else
    var h := st.store.nextHandle;
    st.(store := Opened(st.store, c, db, name),
        conns := st.conns[c := Conn(conn.authenticated, conn.databases[db := h], Preparing(r, h))])
  }

  function Step(config: Config, st: Server, e: Event): Server
    requires Enabled(st, e)
  {
    var c := e.conn;
    match e
    case Connect(_) => st.(conns := st.conns[c := Conn(false, map[], Idle)])
    case Disconnect(_) =>
      st.(store := Closed(st.store, st.conns[c].databases.Values), conns := st.conns - {c})
    case Receive(_, r, req) => ReceiveStep(config, st, c, r, req)
    case Open(_) => OpenStep(st, c)
    case OpenFails(_, error) => Answered(st, c, st.conns[c].progress.request, SqlError(error))
    case PrepareBusy(_) => st
    case PrepareFails(_, error) => Answered(st, c, st.conns[c].progress.request, SqlError(error))
    case Prepare(_, statement, columns) =>
      var Preparing(r, h) := st.conns[c].progress;
      if statement.None? then Answered(st, c, r, SqlError(SQLITE_MISUSE))
      else SetProgress(st, c, Stepping(r, h, statement.value, columns, []))
    case Lock(_) => st.(store := Locked(st.store, st.conns[c].progress.handle))
    case Row(_, tuple) =>
      var p := st.conns[c].progress;
      SetProgress(st, c, p.(tuples := p.tuples + [tuple]))
    case Done(_) =>
      var p := st.conns[c].progress;
      SetProgress(st.(store := Finished(st.store, p.handle, p.request, p.statement)), c,
                  Finalizing(p.request, p.handle, Rows(TableOf(p.columns, p.tuples))))
    case StepFails(_, error, rollback) =>
      var p := st.conns[c].progress;
      SetProgress(st.(store := Failed(st.store, p.handle, p.request, p.statement, rollback)), c,
                  Finalizing(p.request, p.handle, SqlError(error)))
    case Finalize(_) =>
      var p := st.conns[c].progress;
      Answered(st, c, p.request, p.answer)
  }

  /** The answer to a query that yielded these tuples. */
  function TableOf(columns: seq<string>, tuples: seq<seq<SqlValue>>): QueryResult {
    if Rectangular(columns, tuples) then Values.Answer(columns, tuples) else QueryResult(columns, [])
  }

  /** The state after a run, if every event was possible when it happened. */
  function Run(config: Config, st: Server, events: seq<Event>): Option<Server>
    decreases |events|
  {
    if events == [] then Some(st)
    else if !Enabled(st, events[0]) then None
    else Run(config, Step(config, st, events[0]), events[1..])
  }

  // ----- The invariant -----

  /** The caches and the open handles are two views of one relation. */
  ghost predicate CachesMatch(st: Server) {
    && (forall c, db :: c in st.conns && db in st.conns[c].databases ==>
          IsCached(st, st.conns[c].databases[db], c, db))
    && (forall h :: h in st.store.handles ==>
          var handle := st.store.handles[h];
          handle.owner in st.conns && handle.db in st.conns[handle.owner].databases
          && st.conns[handle.owner].databases[handle.db] == h)
  }

  ghost predicate IsCached(st: Server, h: HandleId, c: ConnId, db: string) {
    h in st.store.handles && st.store.handles[h].owner == c && st.store.handles[h].db == db
  }

  /** A running request uses an open handle of its own connection. */
  ghost predicate HandlesInUse(st: Server) {
    forall c :: c in st.conns ==>
      var p := st.conns[c].progress;
      p.Preparing? || p.Stepping? || p.Finalizing? ==>
        p.handle in st.store.handles && st.store.handles[p.handle].owner == c
  }

  /** Uncommitted work outside a transaction belongs to the statement that is running. */
  ghost predicate WorkInUse(st: Server) {
    forall h :: h in st.store.handles && st.store.handles[h].work.Some? && st.store.handles[h].explicit.None? ==>
      IsStepping(st, h)
  }

  ghost predicate IsStepping(st: Server, h: HandleId)
    requires h in st.store.handles
  {
    var c := st.store.handles[h].owner;
    && c in st.conns && st.conns[c].progress.Stepping? && st.conns[c].progress.handle == h
    && NeedsLock(st.conns[c].progress.statement)
  }

  /** An answer with rows means that the statement reached DONE, any other that it did not. */
  ghost predicate AnswerMatches(s: Store, r: RequestId, answer: Answer) {
    if answer.Rows? then r in s.executions && s.executions[r].done
    else r in s.executions ==> !s.executions[r].done
  }

  ghost predicate AnswersMatch(st: Server) {
    && (forall r :: r in st.answers ==> r in st.received && AnswerMatches(st.store, r, st.answers[r]))
    && (forall r :: r in st.store.executions ==> r in st.received)
  }

  /** Requests in progress are distinct, unanswered, and executed only when they are being finalised. */
  ghost predicate RequestsMatch(st: Server) {
    && (forall c :: c in st.conns && !st.conns[c].progress.Idle? ==>
          var p := st.conns[c].progress;
          && p.request in st.received && p.request !in st.answers
          && (if p.Finalizing? then AnswerMatches(st.store, p.request, p.answer)
              else p.request !in st.store.executions))
    && (forall c, c' ::
          c in st.conns && c' in st.conns && !st.conns[c].progress.Idle? && !st.conns[c'].progress.Idle?
          && st.conns[c].progress.request == st.conns[c'].progress.request
          ==> c == c')
    && (forall c :: c in st.conns && st.conns[c].progress.Stepping? ==>
          Rectangular(st.conns[c].progress.columns, st.conns[c].progress.tuples))
  }

  ghost predicate Inv(st: Server) {
    && StoreInv(st.store) && CachesMatch(st) && HandlesInUse(st) && WorkInUse(st)
    && AnswersMatch(st) && RequestsMatch(st)
  }
}
