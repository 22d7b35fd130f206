/** What holds in every reachable state and along every run of the server. */
module ServerTheorems {
  import opened Wrappers
  import opened Values
  import opened Store
  import opened StoreProofs
  import opened Server
  import opened ServerProofs

  lemma ReachableInv(config: Config, events: seq<Event>)
    requires Run(config, START, events).Some?
    ensures Inv(Run(config, START, events).value)
  {
    StartInv();
    RunKeepsInv(config, START, events);
  }

  // ----- No write is lost -----

  ghost predicate Acknowledged(st: Server, r: RequestId) {
    r in st.answers && st.answers[r].Rows?
  }

  ghost predicate Refused(st: Server, r: RequestId) {
    r in st.answers && !st.answers[r].Rows?
  }

  /** A COMMIT of the transaction that request b began has reached DONE. */
  ghost predicate HasCommit(s: Store, b: RequestId) {
    exists r :: r in s.executions && s.executions[r].done && s.executions[r].statement.Commit?
                && s.executions[r].transaction == Some(b)
  }

  /** How often the write of request r is among the committed writes of file g. */
  ghost function Occurrences(s: Store, g: Generation, r: RequestId): nat
    requires g in s.files
  {
    CommittedRequests(s.files[g].history)[r]
  }

  lemma CommitsAreKnown(s: Store, b: RequestId)
    requires TransactionsMatch(s)
    ensures HasCommit(s, b) <==> b in s.commits
  {
    if b in s.commits {
      assert s.commits[b] in s.executions;
    }
  }

  /**
   * In every interleaving: the committed contents of a file are the replay, one after another
   * and in the order of their locks, of the transactions in its history.
   */
  lemma ContentsAreReplayed(config: Config, events: seq<Event>, g: Generation)
    requires Run(config, START, events).Some?
    requires g in Run(config, START, events).value.store.files
    ensures var f := Run(config, START, events).value.store.files[g];
            f.contents == ReplayAll(f.history) && InLockOrder(f.history)
  {
    ReachableInv(config, events);
    var s := Run(config, START, events).value.store;
    assert TicketsMatch(s, g);
  }

  /**
   * In every interleaving: a write answered with rows is committed exactly once, in the file
   * it ran on and nowhere else, unless it ran inside a transaction that has no finished COMMIT;
   * then it is not committed at all. A request that was answered otherwise is in no history.
   */
  lemma NoWriteIsLost(config: Config, events: seq<Event>, r: RequestId, g: Generation)
    requires Run(config, START, events).Some?
    requires var st := Run(config, START, events).value; r in st.answers && g in st.store.files
    ensures var st := Run(config, START, events).value;
            && (Refused(st, r) ==> Occurrences(st.store, g, r) == 0)
            && (Acknowledged(st, r) ==>
                  && r in st.store.executions
                  && var x := st.store.executions[r];
                     Occurrences(st.store, g, r)
                       == if x.statement.Write? && g == x.file
                             && (x.transaction.None? || HasCommit(st.store, x.transaction.value)) then 1 else 0)
  {
    ReachableInv(config, events);
    var st := Run(config, START, events).value;
    assert TransactionsMatch(st.store) && WritesMatch(st.store) && AnswersMatch(st);
    if r in st.store.executions && st.store.executions[r].transaction.Some? {
      CommitsAreKnown(st.store, st.store.executions[r].transaction.value);
    }
    assert AnswerMatches(st.store, r, st.answers[r]);
    hide Inv, StoreInv, Run;
  }

  /**
   * The other direction: a history holds the writes of requests only whose statement reached
   * DONE with that effect, in a transaction whose last statement did, and none of these
   * requests is answered with anything but rows.
   */
  lemma HistoriesHoldOnlyFinishedWrites(config: Config, events: seq<Event>, g: Generation, i: nat, j: nat)
    requires Run(config, START, events).Some?
    requires var s := Run(config, START, events).value.store;
             g in s.files && i < |s.files[g].history| && j < |s.files[g].history[i].writes|
    ensures var st := Run(config, START, events).value;
            var t := st.store.files[g].history[i];
            && IsRecordOf(st.store, t.writes[j]) && st.store.executions[t.writes[j].request].file == g
            && IsFinisher(st.store, g, t.finisher)
            && !Refused(st, t.writes[j].request) && !Refused(st, t.finisher)
  {
    ReachableInv(config, events);
    var st := Run(config, START, events).value;
    var t := st.store.files[g].history[i];
    assert RecordsMatch(st.store) && WritesMatch(st.store) && AnswersMatch(st);
    hide Inv, StoreInv, Run;
    RequestIsCommitted(st.store.files[g].history, i, j);
    assert IsCommitted(st.store, t.writes[j].request, g);
    assert forall r :: r in st.answers ==> AnswerMatches(st.store, r, st.answers[r]);
  }

  lemma {:induction false} RequestIsCommitted(history: seq<Transaction>, i: nat, j: nat)
    requires i < |history| && j < |history[i].writes|
    ensures CommittedRequests(history)[history[i].writes[j].request] > 0
  {
    if i == |history| - 1 {
      RequestIsWritten(history[i].writes, j);
    } else {
      RequestIsCommitted(history[..|history| - 1], i, j);
    }
  }

  lemma {:induction false} RequestIsWritten(writes: seq<WriteRecord>, j: nat)
    requires j < |writes|
    ensures RequestsOf(writes)[writes[j].request] > 0
  {
    if j < |writes| - 1 {
      RequestIsWritten(writes[..|writes| - 1], j);
    }
  }

  // ----- Rolled back for good -----

  /** The transaction that b began has ended without a COMMIT. */
  ghost predicate Abandoned(s: Store, b: RequestId) {
    b in s.executions && b !in s.commits && forall h :: h in s.handles ==> s.handles[h].explicit != Some(b)
  }

  lemma FinishedKeepsAbandoned(s: Store, h: HandleId, r: RequestId, statement: Statement, b: RequestId)
    requires CanFinish(s, h, statement) && r !in s.executions && Abandoned(s, b)
    ensures Abandoned(Finished(s, h, r, statement), b)
  {
  }

  lemma FailedKeepsAbandoned(s: Store, h: HandleId, r: RequestId, statement: Statement, rollback: bool, b: RequestId)
    requires ValidHandle(s, h) && Abandoned(s, b)
    ensures Abandoned(Failed(s, h, r, statement, rollback), b)
  {
    NotedShape(s, h, r, statement, false);
    hide Noted;
  }

  /** Handles are only closed or left with the transaction they have. */
  ghost predicate NoNewTransaction(s: Store, s': Store) {
    && s'.executions == s.executions && s'.commits == s.commits
    && forall h :: h in s'.handles && s'.handles[h].explicit.Some? ==>
         h in s.handles && s'.handles[h].explicit == s.handles[h].explicit
  }

  lemma NoNewTransactionKeepsAbandoned(s: Store, s': Store, b: RequestId)
    requires NoNewTransaction(s, s') && Abandoned(s, b)
    ensures Abandoned(s', b)
  {
  }

  lemma OtherStepsBeginNothing(config: Config, st: Server, e: Event)
    requires Enabled(st, e) && !e.Done? && !e.StepFails? && !e.Receive? && !e.Open?
    ensures NoNewTransaction(st.store, Step(config, st, e).store)
  {
  }

  lemma ReceivingBeginsNothing(config: Config, st: Server, c: ConnId, r: RequestId, req: Request)
    requires c in st.conns
    ensures NoNewTransaction(st.store, ReceiveStep(config, st, c, r, req).store)
  {
    var d := Dispatched(config, st.conns[c].authenticated, req);
    hide Dispatched;
    if d.DeleteDb? {
      DeletingBeginsNothing(st.(received := st.received + {r}), c, d.db, d.name);
    }
    hide NoNewTransaction, DeletedDb;
    NothingBeginsNothing(st.store);
  }

  lemma NothingBeginsNothing(s: Store)
    ensures NoNewTransaction(s, s)
  {
  }

  lemma DeletingBeginsNothing(st: Server, c: ConnId, db: string, name: string)
    requires c in st.conns
    ensures NoNewTransaction(st.store, DeletedDb(st, c, db, name).store)
  {
    if name in st.store.folder {
      RemovedFromFolderOnly(st.store, name);
      hide Removed;
    }
  }

  lemma OpeningBeginsNothing(st: Server, c: ConnId)
    requires c in st.conns && st.conns[c].progress.Opening?
    ensures NoNewTransaction(st.store, OpenStep(st, c).store)
  {
  }

  lemma StepKeepsAbandoned(config: Config, st: Server, e: Event, b: RequestId)
    requires Inv(st) && Enabled(st, e) && Abandoned(st.store, b)
    ensures Abandoned(Step(config, st, e).store, b)
  {
    var c := e.conn;
    match e
    case Done(_) =>
      var p := st.conns[c].progress;
      assert p.request !in st.store.executions by { assert RequestsMatch(st); }
      DoneEnds(config, st, c);
      hide Inv, Finished, Abandoned, Step, Ends;
      FinishedKeepsAbandoned(st.store, p.handle, p.request, p.statement, b);
    case StepFails(_, error, rollback) =>
      var p := st.conns[c].progress;
      FailureEnds(config, st, c, error, rollback);
      hide Inv, Failed, Abandoned, Step, Ends;
      FailedKeepsAbandoned(st.store, p.handle, p.request, p.statement, rollback, b);
    case Open(_) =>
      OpeningBeginsNothing(st, c);
      hide Inv, Abandoned, OpenStep;
      NoNewTransactionKeepsAbandoned(st.store, OpenStep(st, c).store, b);
    case Receive(_, r, req) =>
      ReceivingBeginsNothing(config, st, c, r, req);
      hide Inv, Abandoned, ReceiveStep;
      NoNewTransactionKeepsAbandoned(st.store, ReceiveStep(config, st, c, r, req).store, b);
    case _ =>
      OtherStepsBeginNothing(config, st, e);
      hide Inv, Abandoned, Step;
      NoNewTransactionKeepsAbandoned(st.store, Step(config, st, e).store, b);
  }

  /** A transaction that ended without a COMMIT stays uncommitted, whatever happens later. */
  lemma {:induction false} AbandonedForGood(config: Config, st: Server, events: seq<Event>, b: RequestId)
    requires Inv(st) && Abandoned(st.store, b) && Run(config, st, events).Some?
    ensures Abandoned(Run(config, st, events).value.store, b)
    decreases |events|
  {
    hide Inv, Abandoned;
    if events != [] {
      StepKeepsAbandoned(config, st, events[0], b);
      StepKeepsInv(config, st, events[0]);
      AbandonedForGood(config, Step(config, st, events[0]), events[1..], b);
    }
  }

  /** Dropping a connection abandons the transactions of all its handles. */
  lemma DisconnectAbandons(config: Config, st: Server, c: ConnId, b: RequestId, h: HandleId)
    requires Inv(st) && Enabled(st, Disconnect(c))
    requires h in st.conns[c].databases.Values && h in st.store.handles && st.store.handles[h].explicit == Some(b)
    ensures Abandoned(Step(config, st, Disconnect(c)).store, b)
  {
    assert TransactionsMatch(st.store);
  }

  /**
   * Erasing the handle of a deleted database does the same: its transaction is abandoned, its
   * lock is freed, and no other lock and no committed contents change.
   */
  lemma DeleteAbandons(st: Server, c: ConnId, db: string, name: string)
    requires Inv(st) && c in st.conns && db in st.conns[c].databases && name in st.store.folder
    ensures var h, s' := st.conns[c].databases[db], DeletedDb(st, c, db, name).store;
            && h !in s'.handles
            && (h in st.store.handles && st.store.handles[h].explicit.Some? ==>
                  Abandoned(s', st.store.handles[h].explicit.value))
            && s'.files.Keys == st.store.files.Keys
            && forall g :: g in s'.files ==>
                 && s'.files[g].contents == st.store.files[g].contents
                 && s'.files[g].history == st.store.files[g].history
                 && s'.files[g].writer == if st.store.files[g].writer == Some(h) then None else st.store.files[g].writer
  {
    hide Inv, TransactionsMatch, Abandoned, DeletedDb;
    var h := st.conns[c].databases[db];
    TransactionsOf(st);
    ErasedHandle(st, c, db, name);
    if h in st.store.handles && st.store.handles[h].explicit.Some? {
      ErasedTransaction(st.store, DeletedDb(st, c, db, name).store, h, st.store.handles[h].explicit.value);
    }
  }

  lemma TransactionsOf(st: Server)
    requires Inv(st)
    ensures TransactionsMatch(st.store)
  {
  }

  ghost predicate WithoutHandle(s: Store, s': Store, h: HandleId) {
    forall k :: if k in s.handles && k != h then k in s'.handles && s'.handles[k] == s.handles[k] else k !in s'.handles
  }

  lemma ErasedHandle(st: Server, c: ConnId, db: string, name: string)
    requires c in st.conns && db in st.conns[c].databases && name in st.store.folder
    ensures var h, s' := st.conns[c].databases[db], DeletedDb(st, c, db, name).store;
            && WithoutHandle(st.store, s', h) && s'.executions == st.store.executions && s'.commits == st.store.commits
            && s'.files.Keys == st.store.files.Keys
            && forall g :: g in s'.files ==> s'.files[g] == Unlock(st.store.files[g], {h})
  {
    hide Removed;
    RemovedFromFolderOnly(st.store, name);
  }

  lemma RemovedFromFolderOnly(s: Store, name: string)
    ensures var s' := Removed(s, name);
            s'.files == s.files && s'.handles == s.handles && s'.executions == s.executions && s'.commits == s.commits
  {
  }

  lemma ErasedTransaction(s: Store, s': Store, h: HandleId, b: RequestId)
    requires TransactionsMatch(s) && h in s.handles && s.handles[h].explicit == Some(b)
    requires WithoutHandle(s, s', h) && s'.executions == s.executions && s'.commits == s.commits
    ensures Abandoned(s', b)
  {
    assert s.executions[b].handle == h;
  }

  // ----- The write lock -----

  /**
   * A locked file is locked by one handle: one that a live connection has cached, and that
   * runs a statement or has a transaction open.
   */
  lemma LockOwner(config: Config, events: seq<Event>, g: Generation, h: HandleId)
    requires Run(config, START, events).Some?
    requires var s := Run(config, START, events).value.store; g in s.files && s.files[g].writer == Some(h)
    ensures var st := Run(config, START, events).value;
            && h in st.store.handles && st.store.handles[h].file == g
            && (exists c, db :: c in st.conns && db in st.conns[c].databases && st.conns[c].databases[db] == h)
            && (st.store.handles[h].explicit.Some? || IsStepping(st, h))
  {
    ReachableInv(config, events);
    var st := Run(config, START, events).value;
    assert LocksMatch(st.store) && CachesMatch(st) && WorkInUse(st);
    hide Inv, StoreInv, Run;
    var c := st.store.handles[h].owner;
    assert c in st.conns && st.conns[c].databases[st.store.handles[h].db] == h;
  }

  /** Dropping a connection frees exactly its locks and changes no committed contents. */
  lemma DisconnectFreesLocks(config: Config, st: Server, c: ConnId, g: Generation)
    requires Inv(st) && Enabled(st, Disconnect(c)) && g in st.store.files
    ensures var s' := Step(config, st, Disconnect(c)).store;
            && g in s'.files && s'.files[g].contents == st.store.files[g].contents
            && s'.files[g].history == st.store.files[g].history
            && s'.files[g].writer == (var w := st.store.files[g].writer;
                 if w.Some? && st.store.handles[w.value].owner == c then None else w)
  {
    var w := st.store.files[g].writer;
    if w.Some? {
      assert w.value in st.store.handles by { assert LocksMatch(st.store); }
      CachedMeansOwned(st, c, w.value);
    }
    hide Inv;
  }

  lemma CachedMeansOwned(st: Server, c: ConnId, h: HandleId)
    requires CachesMatch(st) && c in st.conns && h in st.store.handles
    ensures h in st.conns[c].databases.Values <==> st.store.handles[h].owner == c
  {
    if st.store.handles[h].owner == c {
      assert st.conns[c].databases[st.store.handles[h].db] == h;
    }
    if h in st.conns[c].databases.Values {
      var db :| db in st.conns[c].databases && st.conns[c].databases[db] == h;
      assert IsCached(st, h, c, db);
    }
  }

  /** A statement that is not finalised belongs to an open handle, cached by its own connection. */
  lemma StatementsHaveOpenHandles(config: Config, events: seq<Event>, c: ConnId)
    requires Run(config, START, events).Some?
    requires var st := Run(config, START, events).value;
             c in st.conns && (st.conns[c].progress.Stepping? || st.conns[c].progress.Finalizing?)
    ensures var st := Run(config, START, events).value;
            var h := st.conns[c].progress.handle;
            h in st.store.handles && h in st.conns[c].databases.Values
            && !Enabled(st, Disconnect(c)) && forall r, req :: !Enabled(st, Receive(c, r, req))
  {
    ReachableInv(config, events);
    var st := Run(config, START, events).value;
    hide Inv, Run;
    HandleOfStatement(st, c);
  }

  lemma HandleOfStatement(st: Server, c: ConnId)
    requires Inv(st) && c in st.conns && (st.conns[c].progress.Stepping? || st.conns[c].progress.Finalizing?)
    ensures st.conns[c].progress.handle in st.store.handles
    ensures st.conns[c].progress.handle in st.conns[c].databases.Values
  {
    assert HandlesInUse(st) && CachesMatch(st);
    var h := st.conns[c].progress.handle;
    assert st.conns[c].databases[st.store.handles[h].db] == h;
  }

  /** Whatever event closes a handle, no connection has a statement on it that is not finalised. */
  lemma HandlesCloseWithoutStatements(config: Config, st: Server, e: Event, h: HandleId, c: ConnId)
    requires Inv(st) && Enabled(st, e) && h in st.store.handles && h !in Step(config, st, e).store.handles
    requires c in st.conns && (st.conns[c].progress.Stepping? || st.conns[c].progress.Finalizing?)
    ensures st.conns[c].progress.handle != h
  {
    hide Step, CachesMatch, WorkInUse, AnswersMatch, RequestsMatch, StoreInv;
    OnlyIdleHandlesClose(config, st, e, h);
    assert HandlesInUse(st);
  }

  lemma OnlyIdleHandlesClose(config: Config, st: Server, e: Event, h: HandleId)
    requires Inv(st) && Enabled(st, e) && h in st.store.handles && h !in Step(config, st, e).store.handles
    ensures e.conn in st.conns && st.conns[e.conn].progress.Idle? && st.store.handles[h].owner == e.conn
  {
    hide WorkInUse, AnswersMatch, RequestsMatch, StoreInv, HandlesInUse, CachesMatch, Step;
    var c := e.conn;
    if e.Disconnect? {
      DisconnectCloses(config, st, c, h);
    } else if e.Receive? {
      ReceiveCloses(config, st, e, h);
    } else if e.Done? || e.StepFails? {
      EndedStatementsKeepHandles(config, st, e);
    } else {
      OtherStepsKeepHandles(config, st, e);
    }
  }

  lemma DisconnectCloses(config: Config, st: Server, c: ConnId, h: HandleId)
    requires CachesMatch(st) && Enabled(st, Disconnect(c))
    requires h in st.store.handles && h !in Step(config, st, Disconnect(c)).store.handles
    ensures st.store.handles[h].owner == c
  {
    assert h in st.conns[c].databases.Values by {
      assert Step(config, st, Disconnect(c)).store == Closed(st.store, st.conns[c].databases.Values);
    }
    hide Step;
    CachedMeansOwned(st, c, h);
  }

  lemma ReceiveCloses(config: Config, st: Server, e: Event, h: HandleId)
    requires CachesMatch(st) && Enabled(st, e) && e.Receive?
    requires h in st.store.handles && h !in Step(config, st, e).store.handles
    ensures st.store.handles[h].owner == e.conn
  {
    var c := e.conn;
    var d := Dispatched(config, st.conns[c].authenticated, e.content);
    hide Dispatched, CachesMatch, DeletedDb;
    var st1 := st.(received := st.received + {e.request});
    assert d.DeleteDb? && h !in DeletedDb(st1, c, d.db, d.name).store.handles;
    hide Step;
    DeletionCloses(st1, c, d.db, d.name, h);
    CachedIsOwned(st, c, d.db);
  }

  lemma DeletionCloses(st: Server, c: ConnId, db: string, name: string, h: HandleId)
    requires c in st.conns && h in st.store.handles && h !in DeletedDb(st, c, db, name).store.handles
    ensures db in st.conns[c].databases && st.conns[c].databases[db] == h
  {
    if name in st.store.folder {
      RemovedFromFolderOnly(st.store, name);
      hide Removed;
    }
  }

  lemma CachedIsOwned(st: Server, c: ConnId, db: string)
    requires CachesMatch(st) && c in st.conns && db in st.conns[c].databases
    ensures IsCached(st, st.conns[c].databases[db], c, db)
  {
  }

  lemma EndedStatementsKeepHandles(config: Config, st: Server, e: Event)
    requires Enabled(st, e) && (e.Done? || e.StepFails?)
    ensures Step(config, st, e).store.handles.Keys == st.store.handles.Keys
  {
    var c := e.conn;
    hide Finished, Failed, Step, Executed;
    if e.Done? {
      DoneEnds(config, st, c);
    } else {
      FailureEnds(config, st, c, e.error, e.rollback);
    }
  }

  lemma OtherStepsKeepHandles(config: Config, st: Server, e: Event)
    requires Enabled(st, e) && !e.Disconnect? && !e.Receive? && !e.Done? && !e.StepFails?
    ensures st.store.handles.Keys <= Step(config, st, e).store.handles.Keys
  {
    hide TableOf, CanFinish;
  }

  // ----- An answer that is recorded stays -----

  /** The request that an event may answer. */
  ghost predicate MayAnswer(st: Server, e: Event, r: RequestId) {
    if e.Receive? then r == e.request
    else e.conn in st.conns && !st.conns[e.conn].progress.Idle? && r == st.conns[e.conn].progress.request
  }

  lemma OthersStayAnswered(config: Config, st: Server, e: Event, r: RequestId)
    requires Enabled(st, e) && r in st.answers && !MayAnswer(st, e, r)
    ensures var st' := Step(config, st, e); r in st'.answers && st'.answers[r] == st.answers[r]
  {
    hide Dispatched, TableOf, TextFields, CanLock, CanFinish, Removed, Closed, Opened, Locked, Finished, Failed;
    hide FolderListing, NeedsLock;
  }

  lemma StepKeepsAnswers(config: Config, st: Server, e: Event, r: RequestId)
    requires Inv(st) && Enabled(st, e) && r in st.answers
    ensures var st' := Step(config, st, e); r in st'.answers && st'.answers[r] == st.answers[r]
  {
    AnsweredIsOver(st, e, r);
    hide Inv, Enabled, MayAnswer, Step;
    OthersStayAnswered(config, st, e, r);
  }

  lemma AnsweredIsOver(st: Server, e: Event, r: RequestId)
    requires Inv(st) && Enabled(st, e) && r in st.answers
    ensures !MayAnswer(st, e, r)
  {
    assert AnswersMatch(st) && RequestsMatch(st);
    hide Inv, StoreInv, AnswerMatches, Rectangular;
  }

  lemma {:induction false} RunKeepsAnswers(config: Config, st: Server, events: seq<Event>, r: RequestId)
    requires Inv(st) && Run(config, st, events).Some? && r in st.answers
    ensures var st' := Run(config, st, events).value; r in st'.answers && st'.answers[r] == st.answers[r]
    decreases |events|
  {
    hide Inv, Step, Enabled;
    if events != [] {
      StepKeepsAnswers(config, st, events[0], r);
      StepKeepsInv(config, st, events[0]);
      RunKeepsAnswers(config, Step(config, st, events[0]), events[1..], r);
    }
  }

  lemma {:induction false} RunSplit(config: Config, st: Server, before: seq<Event>, after: seq<Event>)
    requires Run(config, st, before + after).Some?
    ensures Run(config, st, before).Some?
    ensures Run(config, st, before + after) == Run(config, Run(config, st, before).value, after)
    decreases |before|
  {
    hide Step, Enabled;
    if before == [] {
      assert before + after == after;
    } else {
      assert (before + after)[1..] == before[1..] + after;
      RunSplit(config, Step(config, st, before[0]), before[1..], after);
    }
  }

  /** What is recorded at one point of a run is recorded at every later one. */
  lemma AnswersStay(config: Config, before: seq<Event>, after: seq<Event>, r: RequestId)
    requires Run(config, START, after).Some? && before <= after
    ensures Run(config, START, before).Some?
    ensures var st := Run(config, START, before).value;
            var st' := Run(config, START, after).value;
            r in st.answers ==> r in st'.answers && st'.answers[r] == st.answers[r]
  {
    hide Run;
    var rest := after[|before|..];
    assert before + rest == after;
    RunSplit(config, START, before, rest);
    StartInv();
    RunKeepsInv(config, START, before);
    var st := Run(config, START, before).value;
    if r in st.answers {
      RunKeepsAnswers(config, st, rest, r);
    }
  }
}
