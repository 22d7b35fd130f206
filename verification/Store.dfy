/**
 * SQLite as the server uses it (sqlite3_wrapper/SQLDatabase.h, SQLStatement.h): database files
 * with one write lock each, open handles with transactions, and the effect of a statement that
 * ran to its end or failed. Removed files live on as long as a handle refers to them, so a file
 * is identified by its generation, not by its name.
 */
module Store {
  import opened Wrappers
  import opened Values

  type ConnId = nat
  type HandleId = nat
  type Generation = nat
  type RequestId = nat

  /** The rows of all tables. */
  type Contents = multiset<seq<SqlValue>>

  /** What a write statement does to the contents it finds. */
  type Effect = Contents -> Contents

  datatype Statement = Read | Write(effect: Effect) | Begin(immediate: bool) | Commit | Rollback

  datatype WriteRecord = WriteRecord(request: RequestId, effect: Effect)

  /** A committed transaction: the number of its lock, its writes and the request that finished it. */
  datatype Transaction = Transaction(ticket: nat, writes: seq<WriteRecord>, finisher: RequestId)

  datatype File = File(
    name: string,
    removals: nat,              // removals of this name before the file was created
    contents: Contents,         // committed
    writer: Option<HandleId>,   // owner of the write lock
    tickets: nat,               // write locks granted so far
    history: seq<Transaction>)  // committed transactions

  /** The uncommitted writes of a handle that holds the write lock, and the contents it sees. */
  datatype Work = Work(ticket: nat, contents: Contents, writes: seq<WriteRecord>)

  datatype Handle = Handle(
    owner: ConnId,
    db: string,                     // the db string under which it is cached
    file: Generation,
    removals: nat,                  // removals of the file's name before it was opened
    explicit: Option<RequestId>,    // the BEGIN of the open transaction
    work: Option<Work>)

  /** A statement that was stepped to its end: DONE, or an error. */
  datatype Execution = Execution(
    handle: HandleId, file: Generation, statement: Statement, transaction: Option<RequestId>, done: bool)

  datatype Store = Store(
    folder: map<string, Generation>,
    removals: map<string, nat>,
    files: map<Generation, File>,
    handles: map<HandleId, Handle>,
    executions: map<RequestId, Execution>,
    commits: map<RequestId, RequestId>,  // the COMMIT that finished a BEGIN
    nextFile: Generation,
    nextHandle: HandleId)

  const EMPTY_STORE := Store(map[], map[], map[], map[], map[], map[], 0, 0)

  // ----- Replaying writes: the sequential reference -----

  function Replay(contents: Contents, writes: seq<WriteRecord>): Contents {
    if writes == [] then contents
    else writes[|writes| - 1].effect(Replay(contents, writes[..|writes| - 1]))
  }

  /** The contents after transactions that are executed one after another. */
  function ReplayAll(history: seq<Transaction>): Contents {
    if history == [] then multiset{}
    else Replay(ReplayAll(history[..|history| - 1]), history[|history| - 1].writes)
  }

  function RequestsOf(writes: seq<WriteRecord>): multiset<RequestId> {
    if writes == [] then multiset{}
    else RequestsOf(writes[..|writes| - 1]) + multiset{writes[|writes| - 1].request}
  }

  /** The requests whose writes are committed, with multiplicity. */
  function CommittedRequests(history: seq<Transaction>): multiset<RequestId> {
    if history == [] then multiset{}
    else CommittedRequests(history[..|history| - 1]) + RequestsOf(history[|history| - 1].writes)
  }

  function PendingRequests(handle: Handle): multiset<RequestId> {
    if handle.work.None? then multiset{} else RequestsOf(handle.work.value.writes)
  }

  lemma SnocWrites(contents: Contents, writes: seq<WriteRecord>, w: WriteRecord)
    ensures Replay(contents, writes + [w]) == w.effect(Replay(contents, writes))
    ensures RequestsOf(writes + [w]) == RequestsOf(writes) + multiset{w.request}
  {
    assert (writes + [w])[..|writes|] == writes;
  }

  lemma SnocHistory(history: seq<Transaction>, t: Transaction)
    ensures ReplayAll(history + [t]) == Replay(ReplayAll(history), t.writes)
    ensures CommittedRequests(history + [t]) == CommittedRequests(history) + RequestsOf(t.writes)
  {
    assert (history + [t])[..|history|] == history;
  }

  // ----- Operations -----

  function Removals(s: Store, name: string): nat {
    if name in s.removals then s.removals[name] else 0
  }

  function Created(s: Store, name: string): Store {
    s.(folder := s.folder[name := s.nextFile],
       files := s.files[s.nextFile := File(name, Removals(s, name), multiset{}, None, 0, [])],
       nextFile := s.nextFile + 1)
  }

  function Attached(s: Store, owner: ConnId, db: string, name: string): Store
    requires name in s.folder
  {
    s.(handles := s.handles[s.nextHandle := Handle(owner, db, s.folder[name], Removals(s, name), None, None)],
       nextHandle := s.nextHandle + 1)
  }

  /** sqlite3_open: the file is created when it is missing. */
  function Opened(s: Store, owner: ConnId, db: string, name: string): Store {
    Attached(if name in s.folder then s else Created(s, name), owner, db, name)
  }

  /** Removing a file from the folder; open handles keep it. */
  function Removed(s: Store, name: string): Store {
    s.(folder := map n | n in s.folder && n != name :: s.folder[n],
       removals := s.removals[name := Removals(s, name) + 1])
  }

  function Unlock(f: File, hs: set<HandleId>): File {
    if f.writer.Some? && f.writer.value in hs then f.(writer := None) else f
  }

  /** sqlite3_close: open transactions are rolled back and their locks freed. */
  function Closed(s: Store, hs: set<HandleId>): Store {
    s.(files := map f | f in s.files :: Unlock(s.files[f], hs),
       handles := map h | h in s.handles && h !in hs :: s.handles[h])
  }

  ghost predicate ValidHandle(s: Store, h: HandleId) {
    h in s.handles && s.handles[h].file in s.files
  }

  predicate NeedsLock(statement: Statement) {
    statement.Write? || (statement.Begin? && statement.immediate)
  }

  /** SQLite grants the write lock only while nobody holds it. */
  predicate CanLock(s: Store, h: HandleId, statement: Statement) {
    && h in s.handles && s.handles[h].file in s.files
    && NeedsLock(statement) && s.handles[h].work.None? && s.files[s.handles[h].file].writer.None?
  }

  function Locked(s: Store, h: HandleId): Store
    requires ValidHandle(s, h)
  {
    var g := s.handles[h].file;
    var f := s.files[g];
    s.(files := s.files[g := f.(writer := Some(h), tickets := f.tickets + 1)],
       handles := s.handles[h := s.handles[h].(work := Some(Work(f.tickets, f.contents, [])))])
  }

  /** The work of a handle becomes the committed contents of its file. */
  function Committed(s: Store, h: HandleId, finisher: RequestId): Store
    requires ValidHandle(s, h) && s.handles[h].work.Some?
  {
    var g, w := s.handles[h].file, s.handles[h].work.value;
    var f := s.files[g];
    s.(files := s.files[g := f.(contents := w.contents, writer := None,
                               history := f.history + [Transaction(w.ticket, w.writes, finisher)])],
       handles := s.handles[h := s.handles[h].(work := None, explicit := None)])
  }

  function Discarded(s: Store, h: HandleId): Store
    requires ValidHandle(s, h)
  {
    var g := s.handles[h].file;
    s.(files := s.files[g := Unlock(s.files[g], {h})],
       handles := s.handles[h := s.handles[h].(work := None, explicit := None)])
  }

  /** The conditions under which SQLite reports DONE. */
  predicate CanFinish(s: Store, h: HandleId, statement: Statement) {
    && h in s.handles && s.handles[h].file in s.files
    && match statement
       case Read => true
       case Write(_) => s.handles[h].work.Some?
       case Begin(immediate) => s.handles[h].explicit.None? && (immediate ==> s.handles[h].work.Some?)
       case Commit => s.handles[h].explicit.Some?
       case Rollback => s.handles[h].explicit.Some?
  }

  function Written(s: Store, h: HandleId, r: RequestId, effect: Effect): Store
    requires ValidHandle(s, h) && s.handles[h].work.Some?
  {
    var w := s.handles[h].work.value;
    var w' := w.(contents := effect(w.contents), writes := w.writes + [WriteRecord(r, effect)]);
    s.(handles := s.handles[h := s.handles[h].(work := Some(w'))])
  }

  /** The statement of a request has been stepped to its end. */
  function Noted(s: Store, h: HandleId, r: RequestId, statement: Statement, done: bool): Store
    requires h in s.handles
  {
    s.(executions := s.executions[r := Execution(h, s.handles[h].file, statement, s.handles[h].explicit, done)])
  }

  function Begun(s: Store, h: HandleId, r: RequestId): Store
    requires h in s.handles
  {
    s.(handles := s.handles[h := s.handles[h].(explicit := Some(r))])
  }

  function Marked(s: Store, b: RequestId, r: RequestId): Store {
    s.(commits := s.commits[b := r])
  }

  /** COMMIT: the work becomes the contents and the transaction is marked as committed. */
  function Completed(s: Store, h: HandleId, r: RequestId): Store
    requires ValidHandle(s, h) && s.handles[h].explicit.Some?
  {
    Marked(if s.handles[h].work.Some? then Committed(s, h, r) else Discarded(s, h), s.handles[h].explicit.value, r)
  }

  /** A statement reached DONE; outside BEGIN ... COMMIT a write commits itself. */
  function Finished(s: Store, h: HandleId, r: RequestId, statement: Statement): Store
    requires CanFinish(s, h, statement)
  {
    var s' := Noted(s, h, r, statement, true);
    match statement
    case Read => s'
    case Write(effect) =>
      var s'' := Written(s', h, r, effect);
      if s.handles[h].explicit.None? then Committed(s'', h, r) else s''
    case Begin(_) => Begun(s', h, r)
    case Commit => Completed(s', h, r)
    case Rollback => Discarded(s', h)
  }

  /**
   * A statement failed: its own effects are undone; outside a transaction, or when SQLite
   * gives up the whole transaction, everything uncommitted is.
   */
  function Failed(s: Store, h: HandleId, r: RequestId, statement: Statement, rollback: bool): Store
    requires ValidHandle(s, h)
  {
    var s' := Noted(s, h, r, statement, false);
    if s.handles[h].explicit.None? || rollback then Discarded(s', h) else s'
  }

  // ----- The invariant -----

  /** The write lock and the uncommitted work belong together. */
  ghost predicate LocksMatch(s: Store) {
    && (forall h :: h in s.handles ==> ValidHandle(s, h))
    && (forall h :: h in s.handles && s.handles[h].work.Some? ==> s.files[s.handles[h].file].writer == Some(h))
    && (forall g :: g in s.files && s.files[g].writer.Some? ==>
          var h := s.files[g].writer.value;
          h in s.handles && s.handles[h].file == g && s.handles[h].work.Some?)
  }

  ghost predicate InLockOrder(history: seq<Transaction>) {
    forall i, j :: 0 <= i < j < |history| ==> history[i].ticket < history[j].ticket
  }

  /** Transactions are committed in the order in which their locks were granted. */
  ghost predicate TicketsMatch(s: Store, g: Generation)
    requires g in s.files
  {
    && InLockOrder(s.files[g].history)
    && forall i :: 0 <= i < |s.files[g].history| ==> s.files[g].history[i].ticket < s.files[g].tickets
  }

  /** The work of the lock's owner has the latest ticket, which is not in the history yet. */
  ghost predicate LatestTicket(s: Store, g: Generation, ticket: nat)
    requires g in s.files
  {
    && ticket + 1 == s.files[g].tickets
    && forall i :: 0 <= i < |s.files[g].history| ==> s.files[g].history[i].ticket < ticket
  }

  /**
   * Committed contents are the replay of the history, which is in lock order; the lock
   * owner's view builds on them.
   */
  ghost predicate ContentsMatch(s: Store) {
    && (forall g :: g in s.files ==> s.files[g].contents == ReplayAll(s.files[g].history) && TicketsMatch(s, g))
    && (forall h :: ValidHandle(s, h) && s.handles[h].work.Some? ==>
          && s.handles[h].work.value.contents
               == Replay(s.files[s.handles[h].file].contents, s.handles[h].work.value.writes)
          && LatestTicket(s, s.handles[h].file, s.handles[h].work.value.ticket))
  }

  /** Requests with a write that reached DONE in a transaction that was committed. */
  ghost predicate IsCommitted(s: Store, r: RequestId, g: Generation) {
    && r in s.executions && s.executions[r].done && s.executions[r].statement.Write?
    && s.executions[r].file == g
    && (s.executions[r].transaction.None? || s.executions[r].transaction.value in s.commits)
  }

  /** Requests with a write that reached DONE in a transaction that is still open. */
  ghost predicate IsPending(s: Store, r: RequestId, h: HandleId) {
    && r in s.executions && s.executions[r].done && s.executions[r].statement.Write?
    && s.executions[r].handle == h && s.executions[r].transaction.Some?
    && h in s.handles && s.handles[h].explicit == s.executions[r].transaction
  }

  /** Every write that must be in a history is there once, and nothing else is. */
  ghost predicate WritesMatch(s: Store) {
    && (forall g, r :: g in s.files ==>
          CommittedRequests(s.files[g].history)[r] == if IsCommitted(s, r, g) then 1 else 0)
    && (forall h, r :: h in s.handles ==>
          PendingRequests(s.handles[h])[r] == if IsPending(s, r, h) then 1 else 0)
  }

  /** Transactions are opened by a BEGIN on their handle, and committed at most once. */
  ghost predicate TransactionsMatch(s: Store) {
    && (forall r :: r in s.executions ==> s.executions[r].file in s.files)
    && (forall h :: h in s.handles && s.handles[h].explicit.Some? ==>
          var b := s.handles[h].explicit.value;
          b in s.executions && s.executions[b].handle == h && s.executions[b].file == s.handles[h].file
          && b !in s.commits)
    && (forall r :: r in s.executions && s.executions[r].transaction.Some? ==>
          var b := s.executions[r].transaction.value;
          b in s.executions && s.executions[b].handle == s.executions[r].handle
          && s.executions[b].file == s.executions[r].file)
    && (forall b :: b in s.commits ==>
          b in s.executions && s.commits[b] in s.executions
          && s.executions[s.commits[b]].done && s.executions[s.commits[b]].statement.Commit?
          && s.executions[s.commits[b]].transaction == Some(b))
    && (forall r :: r in s.executions && s.executions[r].done && s.executions[r].statement.Commit? ==>
          s.executions[r].transaction.Some? && s.executions[r].transaction.value in s.commits)
  }

  /** A recorded write is the write of its request. */
  ghost predicate IsRecordOf(s: Store, w: WriteRecord) {
    w.request in s.executions && s.executions[w.request].done && s.executions[w.request].statement == Write(w.effect)
  }

  /** The finishing statement of a committed transaction reached DONE. */
  ghost predicate IsFinisher(s: Store, g: Generation, r: RequestId) {
    && r in s.executions && s.executions[r].done && s.executions[r].file == g
    && (s.executions[r].statement.Commit? || (s.executions[r].statement.Write? && s.executions[r].transaction.None?))
  }

  ghost predicate RecordsMatch(s: Store) {
    && (forall g, i, j :: g in s.files && 0 <= i < |s.files[g].history| && 0 <= j < |s.files[g].history[i].writes| ==>
          IsRecordOf(s, s.files[g].history[i].writes[j]))
    && (forall g, i :: g in s.files && 0 <= i < |s.files[g].history| ==>
          IsFinisher(s, g, s.files[g].history[i].finisher))
    && (forall h, j :: h in s.handles && s.handles[h].work.Some? && 0 <= j < |s.handles[h].work.value.writes| ==>
          IsRecordOf(s, s.handles[h].work.value.writes[j]))
  }

  /** The file of this name that is, or would be, in the folder. */
  ghost predicate IsCurrent(s: Store, f: File) {
    f.removals == Removals(s, f.name)
  }

  ghost predicate SameKey(f: File, f': File) {
    f.name == f'.name && f.removals == f'.removals
  }

  /** A generation is determined by its name and the removals of that name before it. */
  ghost predicate NamesMatch(s: Store) {
    && (forall g :: g in s.files ==> g < s.nextFile && s.files[g].removals <= Removals(s, s.files[g].name))
    && (forall g, g' :: g in s.files && g' in s.files && SameKey(s.files[g], s.files[g']) ==> g == g')
    && (forall n :: n in s.folder ==>
          s.folder[n] in s.files && s.files[s.folder[n]].name == n && IsCurrent(s, s.files[s.folder[n]]))
    && (forall g :: g in s.files && IsCurrent(s, s.files[g]) ==>
          s.files[g].name in s.folder && s.folder[s.files[g].name] == g)
  }

  ghost predicate HandlesMatch(s: Store) {
    && (forall h :: h in s.handles ==> h < s.nextHandle)
    && (forall h :: ValidHandle(s, h) ==> s.handles[h].removals == s.files[s.handles[h].file].removals)
  }

  ghost predicate StoreInv(s: Store) {
    && LocksMatch(s) && ContentsMatch(s) && TransactionsMatch(s) && WritesMatch(s) && RecordsMatch(s)
    && NamesMatch(s) && HandlesMatch(s)
  }

  lemma EmptyStoreInv()
    ensures StoreInv(EMPTY_STORE)
  {
  }
}
