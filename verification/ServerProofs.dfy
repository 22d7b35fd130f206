/** Every step of the server keeps its invariant, in every interleaving. */
module ServerProofs {
  import opened Wrappers
  import opened Values
  import opened Store
  import opened StoreProofs
  import opened Server

  // ----- What the store's operations do to handles and executions -----

  /** No handle is added or removed, and the others than h stay as they are. */
  ghost predicate OnlyHandle(s: Store, s': Store, h: HandleId) {
    && s'.handles.Keys == s.handles.Keys && h in s.handles
    && s'.handles[h].owner == s.handles[h].owner && s'.handles[h].db == s.handles[h].db
    && forall k :: k in s.handles && k != h ==> s'.handles[k] == s.handles[k]
  }

  ghost predicate Executed(s: Store, s': Store, r: RequestId, done: bool) {
    && s'.executions.Keys == s.executions.Keys + {r} && s'.executions[r].done == done
    && forall q :: q in s.executions && q != r ==> s'.executions[q] == s.executions[q]
  }

  /** What DONE leaves behind: uncommitted work outside a transaction is only what a read found. */
  ghost predicate EndsDone(s: Store, s': Store, h: HandleId, r: RequestId, statement: Statement) {
    && OnlyHandle(s, s', h) && Executed(s, s', r, true)
    && (s'.handles[h].work.Some? && s'.handles[h].explicit.None? ==> statement.Read? && s'.handles[h] == s.handles[h])
  }

  lemma FinishedWriteShape(s: Store, h: HandleId, r: RequestId, effect: Effect)
    requires CanFinish(s, h, Write(effect))
    ensures EndsDone(s, Finished(s, h, r, Write(effect)), h, r, Write(effect))
  {
  }

  lemma FinishedCommitShape(s: Store, h: HandleId, r: RequestId)
    requires CanFinish(s, h, Commit)
    ensures EndsDone(s, Finished(s, h, r, Commit), h, r, Commit)
  {
  }

  lemma FinishedOtherShape(s: Store, h: HandleId, r: RequestId, statement: Statement)
    requires CanFinish(s, h, statement) && !statement.Write? && !statement.Commit?
    ensures EndsDone(s, Finished(s, h, r, statement), h, r, statement)
  {
  }

  lemma FinishedShape(s: Store, h: HandleId, r: RequestId, statement: Statement)
    requires CanFinish(s, h, statement)
    ensures EndsDone(s, Finished(s, h, r, statement), h, r, statement)
  {
    hide EndsDone, Finished;
    if statement.Write? {
      FinishedWriteShape(s, h, r, statement.effect);
    } else if statement.Commit? {
      FinishedCommitShape(s, h, r);
    } else {
      FinishedOtherShape(s, h, r, statement);
    }
  }

  lemma FailedShape(s: Store, h: HandleId, r: RequestId, statement: Statement, rollback: bool)
    requires ValidHandle(s, h)
    ensures var s' := Failed(s, h, r, statement, rollback);
            && OnlyHandle(s, s', h) && Executed(s, s', r, false)
            && (s'.handles[h].work.Some? ==> s'.handles[h].explicit.Some?)
  {
    NotedShape(s, h, r, statement, false);
    var s1 := Noted(s, h, r, statement, false);
    if s.handles[h].explicit.None? || rollback {
      DiscardedShape(s1, h);
    }
    hide Noted, Discarded;
  }

  lemma NotedShape(s: Store, h: HandleId, r: RequestId, statement: Statement, done: bool)
    requires h in s.handles
    ensures var s' := Noted(s, h, r, statement, done);
            s'.handles == s.handles && s'.files == s.files && Executed(s, s', r, done)
  {
  }

  lemma DiscardedShape(s: Store, h: HandleId)
    requires ValidHandle(s, h)
    ensures OnlyHandle(s, Discarded(s, h), h) && Discarded(s, h).executions == s.executions
    ensures Discarded(s, h).handles[h].work.None?
  {
  }

  // ----- Steps that leave the store alone -----

  /** The two states have the same handles, up to transactions, and the same caches. */
  ghost predicate SameCaches(st: Server, st': Server) {
    && st'.store.handles.Keys == st.store.handles.Keys && st'.conns.Keys == st.conns.Keys
    && (forall h :: h in st.store.handles ==>
          st'.store.handles[h].owner == st.store.handles[h].owner && st'.store.handles[h].db == st.store.handles[h].db)
    && (forall c :: c in st.conns ==> st'.conns[c].databases == st.conns[c].databases)
  }

  lemma SameCachesMatch(st: Server, st': Server)
    requires CachesMatch(st) && SameCaches(st, st')
    ensures CachesMatch(st')
  {
    assert forall h :: h in st'.store.handles <==> h in st.store.handles;
    assert forall c :: c in st'.conns <==> c in st.conns;
    forall c, db | c in st'.conns && db in st'.conns[c].databases
      ensures IsCached(st', st'.conns[c].databases[db], c, db)
    {
      assert IsCached(st, st.conns[c].databases[db], c, db);
    }
  }

  /** A handler moves on with the same request. */
  ghost predicate CanMoveOn(st: Server, c: ConnId, p: Progress) {
    && c in st.conns
    && var p0 := st.conns[c].progress;
       && (p.Stepping? || p.Preparing?) && (p0.Preparing? || p0.Stepping?)
       && p.request == p0.request && p.handle == p0.handle
       && (p0.Stepping? ==> p.Stepping? && p.statement == p0.statement)
       && (p.Stepping? ==> Rectangular(p.columns, p.tuples))
  }

  lemma ProgressKeepsHandles(st: Server, c: ConnId, p: Progress)
    requires CachesMatch(st) && HandlesInUse(st) && WorkInUse(st) && CanMoveOn(st, c, p)
    ensures CachesMatch(SetProgress(st, c, p))
    ensures HandlesInUse(SetProgress(st, c, p)) && WorkInUse(SetProgress(st, c, p))
  {
    SameCachesMatch(st, SetProgress(st, c, p));
    hide CachesMatch;
  }

  lemma ProgressKeepsRequests(st: Server, c: ConnId, p: Progress)
    requires AnswersMatch(st) && RequestsMatch(st) && CanMoveOn(st, c, p)
    ensures AnswersMatch(SetProgress(st, c, p)) && RequestsMatch(SetProgress(st, c, p))
  {
    hide AnswerMatches;
  }

  lemma ProgressKeepsInv(st: Server, c: ConnId, p: Progress)
    requires Inv(st) && CanMoveOn(st, c, p)
    ensures Inv(SetProgress(st, c, p))
  {
    hide StoreInv, CachesMatch, HandlesInUse, WorkInUse, AnswersMatch, RequestsMatch;
    ProgressKeepsHandles(st, c, p);
    ProgressKeepsRequests(st, c, p);
  }

  /** A handler answers its request. */
  ghost predicate CanAnswer(st: Server, c: ConnId, r: RequestId, answer: Answer) {
    && c in st.conns && !st.conns[c].progress.Idle? && !st.conns[c].progress.Stepping?
    && st.conns[c].progress.request == r
    && (if st.conns[c].progress.Finalizing? then answer == st.conns[c].progress.answer else !answer.Rows?)
  }

  lemma AnsweredKeepsHandles(st: Server, c: ConnId, r: RequestId, answer: Answer)
    requires CachesMatch(st) && HandlesInUse(st) && WorkInUse(st) && CanAnswer(st, c, r, answer)
    ensures CachesMatch(Answered(st, c, r, answer)) && HandlesInUse(Answered(st, c, r, answer))
    ensures WorkInUse(Answered(st, c, r, answer))
  {
  }

  lemma AnsweredKeepsRequests(st: Server, c: ConnId, r: RequestId, answer: Answer)
    requires AnswersMatch(st) && RequestsMatch(st) && CanAnswer(st, c, r, answer)
    ensures AnswersMatch(Answered(st, c, r, answer)) && RequestsMatch(Answered(st, c, r, answer))
  {
    var st' := Answered(st, c, r, answer);
    assert AnswerMatches(st.store, r, answer);
    hide AnswerMatches;
  }

  lemma AnsweredKeepsInv(st: Server, c: ConnId, r: RequestId, answer: Answer)
    requires Inv(st) && CanAnswer(st, c, r, answer)
    ensures Inv(Answered(st, c, r, answer))
  {
    hide StoreInv, CachesMatch, HandlesInUse, WorkInUse, AnswersMatch, RequestsMatch;
    AnsweredKeepsHandles(st, c, r, answer);
    AnsweredKeepsRequests(st, c, r, answer);
  }

  // ----- Requests that are answered at once -----

  lemma ReplyKeepsHandles(st: Server, c: ConnId, r: RequestId, answer: Answer)
    requires CachesMatch(st) && HandlesInUse(st) && WorkInUse(st) && c in st.conns && st.conns[c].progress.Idle?
    ensures var st' := Answered(st.(received := st.received + {r}), c, r, answer);
            CachesMatch(st') && HandlesInUse(st') && WorkInUse(st')
  {
    SameCachesMatch(st, Answered(st.(received := st.received + {r}), c, r, answer));
    hide CachesMatch;
  }

  lemma ReplyKeepsRequests(st: Server, c: ConnId, r: RequestId, answer: Answer)
    requires AnswersMatch(st) && RequestsMatch(st)
    requires c in st.conns && st.conns[c].progress.Idle? && r !in st.received && !answer.Rows?
    ensures var st' := Answered(st.(received := st.received + {r}), c, r, answer);
            AnswersMatch(st') && RequestsMatch(st')
  {
    var st' := Answered(st.(received := st.received + {r}), c, r, answer);
    assert AnswerMatches(st'.store, r, answer);
    hide AnswerMatches;
  }

  lemma ReplyKeepsInv(st: Server, c: ConnId, r: RequestId, answer: Answer)
    requires Inv(st) && c in st.conns && st.conns[c].progress.Idle? && r !in st.received && !answer.Rows?
    ensures Inv(Answered(st.(received := st.received + {r}), c, r, answer))
  {
    hide StoreInv, CachesMatch, HandlesInUse, WorkInUse, AnswersMatch, RequestsMatch;
    ReplyKeepsHandles(st, c, r, answer);
    ReplyKeepsRequests(st, c, r, answer);
  }

  lemma AuthenticatedKeepsHandles(st: Server, c: ConnId)
    requires CachesMatch(st) && HandlesInUse(st) && WorkInUse(st) && c in st.conns
    ensures var st' := st.(conns := st.conns[c := st.conns[c].(authenticated := true)]);
            CachesMatch(st') && HandlesInUse(st') && WorkInUse(st')
  {
  }

  lemma AuthenticatedKeepsRequests(st: Server, c: ConnId)
    requires AnswersMatch(st) && RequestsMatch(st) && c in st.conns
    ensures var st' := st.(conns := st.conns[c := st.conns[c].(authenticated := true)]);
            AnswersMatch(st') && RequestsMatch(st')
  {
    hide AnswerMatches;
  }

  lemma AuthenticatedKeepsInv(st: Server, c: ConnId)
    requires Inv(st) && c in st.conns
    ensures Inv(st.(conns := st.conns[c := st.conns[c].(authenticated := true)]))
  {
    hide StoreInv, CachesMatch, HandlesInUse, WorkInUse, AnswersMatch, RequestsMatch;
    AuthenticatedKeepsHandles(st, c);
    AuthenticatedKeepsRequests(st, c);
  }

  lemma StartKeepsHandles(st: Server, c: ConnId, r: RequestId, db: string, name: string)
    requires CachesMatch(st) && HandlesInUse(st) && WorkInUse(st) && c in st.conns && st.conns[c].progress.Idle?
    ensures var st' := SetProgress(st.(received := st.received + {r}), c, Opening(r, db, name));
            CachesMatch(st') && HandlesInUse(st') && WorkInUse(st')
  {
  }

  lemma StartKeepsRequests(st: Server, c: ConnId, r: RequestId, db: string, name: string)
    requires AnswersMatch(st) && RequestsMatch(st)
    requires c in st.conns && st.conns[c].progress.Idle? && r !in st.received
    ensures var st' := SetProgress(st.(received := st.received + {r}), c, Opening(r, db, name));
            AnswersMatch(st') && RequestsMatch(st')
  {
    hide AnswerMatches;
  }

  lemma StartKeepsInv(st: Server, c: ConnId, r: RequestId, db: string, name: string)
    requires Inv(st) && c in st.conns && st.conns[c].progress.Idle? && r !in st.received
    ensures Inv(SetProgress(st.(received := st.received + {r}), c, Opening(r, db, name)))
  {
    hide StoreInv, CachesMatch, HandlesInUse, WorkInUse, AnswersMatch, RequestsMatch;
    StartKeepsHandles(st, c, r, db, name);
    StartKeepsRequests(st, c, r, db, name);
  }

  /** Handles of an idle connection are closed, and maybe the connection itself. */
  ghost predicate ClosesHandlesOf(st: Server, st': Server, c: ConnId) {
    && c in st.conns && st.conns[c].progress.Idle?
    && (forall h :: h in st'.store.handles ==> h in st.store.handles && st'.store.handles[h] == st.store.handles[h])
    && (forall h :: h in st.store.handles && h !in st'.store.handles ==> st.store.handles[h].owner == c)
    && (forall c' :: c' in st'.conns ==> c' in st.conns && st'.conns[c'].progress == st.conns[c'].progress)
    && (forall c' :: c' in st.conns && c' != c ==> c' in st'.conns)
    && st'.store.executions == st.store.executions && st'.answers == st.answers && st'.received == st.received
  }

  lemma ClosingKeepsUse(st: Server, st': Server, c: ConnId)
    requires HandlesInUse(st) && WorkInUse(st) && ClosesHandlesOf(st, st', c)
    ensures HandlesInUse(st') && WorkInUse(st')
  {
  }

  lemma ClosingKeepsRequests(st: Server, st': Server, c: ConnId)
    requires AnswersMatch(st) && RequestsMatch(st) && ClosesHandlesOf(st, st', c)
    ensures AnswersMatch(st') && RequestsMatch(st')
  {
    assert forall r, answer :: AnswerMatches(st'.store, r, answer) == AnswerMatches(st.store, r, answer);
    hide AnswerMatches;
  }

  function Dropped(st: Server, c: ConnId, db: string): Server
    requires c in st.conns && db in st.conns[c].databases
  {
    var databases := st.conns[c].databases;
    st.(store := Closed(st.store, {databases[db]}),
        conns := st.conns[c := st.conns[c].(databases := databases - {db})])
  }

  function Dismissed(st: Server, c: ConnId): Server
    requires c in st.conns
  {
    st.(store := Closed(st.store, st.conns[c].databases.Values), conns := st.conns - {c})
  }

  lemma DroppedCaches(st: Server, c: ConnId, db: string)
    requires CachesMatch(st) && c in st.conns && st.conns[c].progress.Idle? && db in st.conns[c].databases
    ensures CachesMatch(Dropped(st, c, db)) && ClosesHandlesOf(st, Dropped(st, c, db), c)
  {
  }

  lemma DismissedCaches(st: Server, c: ConnId)
    requires CachesMatch(st) && c in st.conns && st.conns[c].progress.Idle?
    ensures CachesMatch(Dismissed(st, c)) && ClosesHandlesOf(st, Dismissed(st, c), c)
  {
  }

  /** Dropping a cached handle of a connection that runs no request. */
  lemma DroppedKeepsInv(st: Server, c: ConnId, db: string)
    requires Inv(st) && c in st.conns && st.conns[c].progress.Idle? && db in st.conns[c].databases
    ensures Inv(Dropped(st, c, db))
  {
    hide StoreInv, CachesMatch, HandlesInUse, WorkInUse, AnswersMatch, RequestsMatch, ClosesHandlesOf;
    ClosedKeepsInv(st.store, {st.conns[c].databases[db]});
    DroppedCaches(st, c, db);
    ClosingKeepsUse(st, Dropped(st, c, db), c);
    ClosingKeepsRequests(st, Dropped(st, c, db), c);
  }

  lemma DisconnectKeepsInv(st: Server, c: ConnId)
    requires Inv(st) && c in st.conns && st.conns[c].progress.Idle?
    ensures Inv(Dismissed(st, c))
  {
    hide StoreInv, CachesMatch, HandlesInUse, WorkInUse, AnswersMatch, RequestsMatch, ClosesHandlesOf;
    ClosedKeepsInv(st.store, st.conns[c].databases.Values);
    DismissedCaches(st, c);
    ClosingKeepsUse(st, Dismissed(st, c), c);
    ClosingKeepsRequests(st, Dismissed(st, c), c);
  }

  /** The server's invariant looks at the store's handles and executions only. */
  lemma StoreFrame(st: Server, s': Store)
    requires CachesMatch(st) && HandlesInUse(st) && WorkInUse(st)
    requires s'.handles == st.store.handles
    ensures CachesMatch(st.(store := s')) && HandlesInUse(st.(store := s')) && WorkInUse(st.(store := s'))
  {
  }

  lemma ExecutionsFrame(st: Server, s': Store)
    requires AnswersMatch(st) && RequestsMatch(st) && s'.executions == st.store.executions
    ensures AnswersMatch(st.(store := s')) && RequestsMatch(st.(store := s'))
  {
    assert forall r, answer :: AnswerMatches(s', r, answer) == AnswerMatches(st.store, r, answer);
    hide AnswerMatches;
  }

  lemma RemovedStoreKeepsInv(st: Server, name: string)
    requires Inv(st) && name in st.store.folder
    ensures Inv(st.(store := Removed(st.store, name)))
  {
    hide StoreInv, CachesMatch, HandlesInUse, WorkInUse, AnswersMatch, RequestsMatch;
    RemovedKeepsInv(st.store, name);
    StoreFrame(st, Removed(st.store, name));
    ExecutionsFrame(st, Removed(st.store, name));
  }

  lemma DeletedDbKeepsInv(st: Server, c: ConnId, db: string, name: string)
    requires Inv(st) && c in st.conns && st.conns[c].progress.Idle?
    ensures Inv(DeletedDb(st, c, db, name))
  {
    hide Inv;
    if name in st.store.folder {
      RemovedStoreKeepsInv(st, name);
      var st' := st.(store := Removed(st.store, name));
      if db in st.conns[c].databases {
        DroppedKeepsInv(st', c, db);
      }
    }
  }

  lemma ReceiveKeepsInv(config: Config, st: Server, c: ConnId, r: RequestId, req: Request)
    requires Inv(st) && Enabled(st, Receive(c, r, req))
    ensures Inv(ReceiveStep(config, st, c, r, req))
  {
    hide Inv;
    match Dispatched(config, st.conns[c].authenticated, req)
    case Reply(answer) => ReplyKeepsInv(st, c, r, answer);
    case Authenticate =>
      AuthenticatedKeepsInv(st, c);
      ReplyKeepsInv(st.(conns := st.conns[c := st.conns[c].(authenticated := true)]), c, r, AuthResult(true));
    case RunQuery(db, name) => StartKeepsInv(st, c, r, db, name);
    case ListFolder => ReplyKeepsInv(st, c, r, Listing(FolderListing(st.store)));
    case DeleteDb(db, name) =>
      DeletedDbKeepsInv(st, c, db, name);
      var st' := DeletedDb(st, c, db, name);
      assert st'.received == st.received && c in st'.conns && st'.conns[c].progress.Idle?;
      ReplyKeepsInv(st', c, r, Deleted(name in st.store.folder));
      assert DeletedDb(st.(received := st.received + {r}), c, db, name) == st'.(received := st.received + {r});
  }

  // ----- Connections -----

  lemma ConnectKeepsInv(st: Server, c: ConnId)
    requires Inv(st) && c !in st.conns
    ensures Inv(st.(conns := st.conns[c := Conn(false, map[], Idle)]))
  {
    hide StoreInv, AnswerMatches;
  }

  // ----- The steps of a QUERY -----

  lemma OpenKeepsHandles(st: Server, c: ConnId)
    requires CachesMatch(st) && HandlesInUse(st) && WorkInUse(st) && HandlesMatch(st.store)
    requires c in st.conns && st.conns[c].progress.Opening?
    ensures CachesMatch(OpenStep(st, c)) && HandlesInUse(OpenStep(st, c)) && WorkInUse(OpenStep(st, c))
  {
    var conn := st.conns[c];
    var Opening(r, db, name) := conn.progress;
    if db in conn.databases {
      assert IsCached(st, conn.databases[db], c, db);
      IdleHandlesKeepUse(st, c, Preparing(r, conn.databases[db]));
    } else {
      assert st.store.nextHandle !in st.store.handles;
      OpenNewKeepsHandles(st, c);
    }
  }

  lemma IdleHandlesKeepUse(st: Server, c: ConnId, p: Progress)
    requires CachesMatch(st) && HandlesInUse(st) && WorkInUse(st)
    requires c in st.conns && st.conns[c].progress.Opening? && p.Preparing?
    requires p.handle in st.store.handles && st.store.handles[p.handle].owner == c
    ensures CachesMatch(SetProgress(st, c, p))
    ensures HandlesInUse(SetProgress(st, c, p)) && WorkInUse(SetProgress(st, c, p))
  {
    SameCachesMatch(st, SetProgress(st, c, p));
    hide CachesMatch;
  }

  /** The connection has a new handle, cached under the string it asked for. */
  ghost predicate OpensNew(st: Server, st': Server, c: ConnId, h: HandleId) {
    && c in st.conns && st.conns[c].progress.Opening? && st.conns[c].progress.db !in st.conns[c].databases
    && h !in st.store.handles && st'.store.handles.Keys == st.store.handles.Keys + {h}
    && (forall k :: k in st.store.handles ==> st'.store.handles[k] == st.store.handles[k])
    && IsCached(st', h, c, st.conns[c].progress.db) && st'.store.handles[h].work.None?
    && var conn := st.conns[c];
       st'.conns == st.conns[c := Conn(conn.authenticated, conn.databases[conn.progress.db := h],
                                       Preparing(conn.progress.request, h))]
  }

  lemma OpensNewCaches(st: Server, st': Server, c: ConnId, h: HandleId)
    requires CachesMatch(st) && OpensNew(st, st', c, h)
    ensures CachesMatch(st')
  {
  }

  lemma OpensNewUse(st: Server, st': Server, c: ConnId, h: HandleId)
    requires HandlesInUse(st) && WorkInUse(st) && OpensNew(st, st', c, h)
    ensures HandlesInUse(st') && WorkInUse(st')
  {
  }

  lemma OpenNewKeepsHandles(st: Server, c: ConnId)
    requires CachesMatch(st) && HandlesInUse(st) && WorkInUse(st) && st.store.nextHandle !in st.store.handles
    requires c in st.conns && st.conns[c].progress.Opening? && st.conns[c].progress.db !in st.conns[c].databases
    ensures CachesMatch(OpenStep(st, c)) && HandlesInUse(OpenStep(st, c)) && WorkInUse(OpenStep(st, c))
  {
    hide CachesMatch, HandlesInUse, WorkInUse;
    var h := st.store.nextHandle;
    assert OpensNew(st, OpenStep(st, c), c, h) by {
      OpenedShape(st.store, c, st.conns[c].progress.db, st.conns[c].progress.name);
      hide Opened;
    }
    OpensNewCaches(st, OpenStep(st, c), c, h);
    OpensNewUse(st, OpenStep(st, c), c, h);
  }

  lemma OpenedShape(s: Store, owner: ConnId, db: string, name: string)
    ensures var s' := Opened(s, owner, db, name);
            && s'.handles.Keys == s.handles.Keys + {s.nextHandle} && s'.executions == s.executions
            && (forall h :: h in s.handles && h != s.nextHandle ==> s'.handles[h] == s.handles[h])
            && s'.handles[s.nextHandle].owner == owner && s'.handles[s.nextHandle].db == db
            && s'.handles[s.nextHandle].work.None?
  {
  }

  lemma OpenKeepsRequests(st: Server, c: ConnId)
    requires AnswersMatch(st) && RequestsMatch(st)
    requires c in st.conns && st.conns[c].progress.Opening?
    ensures AnswersMatch(OpenStep(st, c)) && RequestsMatch(OpenStep(st, c))
  {
    var st' := OpenStep(st, c);
    assert forall r, answer :: AnswerMatches(st'.store, r, answer) == AnswerMatches(st.store, r, answer);
    hide AnswerMatches, Opened;
  }

  lemma OpenKeepsInv(st: Server, c: ConnId)
    requires Inv(st) && c in st.conns && st.conns[c].progress.Opening?
    ensures Inv(OpenStep(st, c))
  {
    assert HandlesMatch(st.store);
    hide StoreInv, CachesMatch, HandlesInUse, WorkInUse, AnswersMatch, RequestsMatch, HandlesMatch;
    var conn := st.conns[c];
    if conn.progress.db !in conn.databases {
      OpenedKeepsInv(st.store, c, conn.progress.db, conn.progress.name);
    }
    OpenKeepsHandles(st, c);
    OpenKeepsRequests(st, c);
  }

  lemma LockedShape(s: Store, h: HandleId)
    requires ValidHandle(s, h)
    ensures OnlyHandle(s, Locked(s, h), h) && Locked(s, h).executions == s.executions
  {
  }

  lemma LockKeepsCaches(st: Server, c: ConnId)
    requires CachesMatch(st) && Enabled(st, Lock(c))
    ensures CachesMatch(st.(store := Locked(st.store, st.conns[c].progress.handle)))
  {
    var h := st.conns[c].progress.handle;
    LockedShape(st.store, h);
    hide Locked, CachesMatch;
    SameCachesMatch(st, st.(store := Locked(st.store, h)));
  }

  lemma LockKeepsUse(st: Server, c: ConnId)
    requires HandlesInUse(st) && WorkInUse(st) && Enabled(st, Lock(c))
    ensures var st' := st.(store := Locked(st.store, st.conns[c].progress.handle));
            HandlesInUse(st') && WorkInUse(st')
  {
    var h := st.conns[c].progress.handle;
    var s' := Locked(st.store, h);
    LockedShape(st.store, h);
    hide Locked;
    forall k | k in s'.handles && s'.handles[k].work.Some? && s'.handles[k].explicit.None?
      ensures IsStepping(st.(store := s'), k)
    {
      assert k != h ==> IsStepping(st, k);
    }
  }

  lemma LockKeepsHandles(st: Server, c: ConnId)
    requires CachesMatch(st) && HandlesInUse(st) && WorkInUse(st) && Enabled(st, Lock(c))
    ensures var st' := st.(store := Locked(st.store, st.conns[c].progress.handle));
            CachesMatch(st') && HandlesInUse(st') && WorkInUse(st')
  {
    hide CachesMatch, HandlesInUse, WorkInUse, Locked;
    LockKeepsCaches(st, c);
    LockKeepsUse(st, c);
  }

  lemma LockKeepsInv(st: Server, c: ConnId)
    requires Inv(st) && Enabled(st, Lock(c))
    ensures Inv(st.(store := Locked(st.store, st.conns[c].progress.handle)))
  {
    hide StoreInv, CachesMatch, HandlesInUse, WorkInUse, AnswersMatch, RequestsMatch;
    var p := st.conns[c].progress;
    LockedKeepsInv(st.store, p.handle, p.statement);
    LockKeepsHandles(st, c);
    ExecutionsFrame(st, Locked(st.store, p.handle));
  }

  /** A statement of connection c has been stepped to its end, with this outcome. */
  ghost predicate Ends(st: Server, c: ConnId, s': Store, answer: Answer) {
    && c in st.conns && st.conns[c].progress.Stepping? && (answer.Rows? || answer.SqlError?)
    && var p := st.conns[c].progress;
       && OnlyHandle(st.store, s', p.handle) && Executed(st.store, s', p.request, answer.Rows?)
       && (s'.handles[p.handle].work.Some? && s'.handles[p.handle].explicit.None? ==>
             p.statement.Read? && s'.handles[p.handle] == st.store.handles[p.handle])
  }

  function Ended(st: Server, c: ConnId, s': Store, answer: Answer): Server
    requires c in st.conns && st.conns[c].progress.Stepping?
  {
    var p := st.conns[c].progress;
    SetProgress(st.(store := s'), c, Finalizing(p.request, p.handle, answer))
  }

  lemma EndedKeepsCaches(st: Server, c: ConnId, s': Store, answer: Answer)
    requires CachesMatch(st) && HandlesInUse(st) && Ends(st, c, s', answer)
    ensures CachesMatch(Ended(st, c, s', answer)) && HandlesInUse(Ended(st, c, s', answer))
  {
    hide Executed, CachesMatch;
    var st' := Ended(st, c, s', answer);
    assert forall h :: h in s'.handles <==> h in st.store.handles;
    assert forall h :: h in s'.handles ==>
      s'.handles[h].owner == st.store.handles[h].owner && s'.handles[h].db == st.store.handles[h].db;
    hide OnlyHandle;
    assert SameCaches(st, st');
    SameCachesMatch(st, st');
  }

  lemma EndedKeepsWork(st: Server, c: ConnId, s': Store, answer: Answer)
    requires HandlesInUse(st) && WorkInUse(st) && Ends(st, c, s', answer)
    ensures WorkInUse(Ended(st, c, s', answer))
  {
    hide Executed;
    var st', p := Ended(st, c, s', answer), st.conns[c].progress;
    forall h | h in s'.handles && s'.handles[h].work.Some? && s'.handles[h].explicit.None?
      ensures IsStepping(st', h)
    {
      assert h in st.store.handles && s'.handles[h] == st.store.handles[h];
      assert IsStepping(st, h);
      assert h != p.handle;
    }
  }

  lemma EndedKeepsRequests(st: Server, c: ConnId, s': Store, answer: Answer)
    requires AnswersMatch(st) && RequestsMatch(st) && Ends(st, c, s', answer)
    ensures AnswersMatch(Ended(st, c, s', answer)) && RequestsMatch(Ended(st, c, s', answer))
  {
    var r := st.conns[c].progress.request;
    assert forall q, a :: q != r ==> AnswerMatches(s', q, a) == AnswerMatches(st.store, q, a);
    assert AnswerMatches(s', r, answer);
    assert s'.executions.Keys == st.store.executions.Keys + {r};
    hide AnswerMatches, OnlyHandle, Executed;
  }

  lemma EndedKeepsInv(st: Server, c: ConnId, s': Store, answer: Answer)
    requires Inv(st) && Ends(st, c, s', answer) && StoreInv(s')
    ensures Inv(Ended(st, c, s', answer))
  {
    hide StoreInv, CachesMatch, HandlesInUse, WorkInUse, AnswersMatch, RequestsMatch;
    EndedKeepsCaches(st, c, s', answer);
    EndedKeepsWork(st, c, s', answer);
    EndedKeepsRequests(st, c, s', answer);
  }

  lemma DoneEnds(config: Config, st: Server, c: ConnId)
    requires Enabled(st, Done(c))
    ensures var p := st.conns[c].progress;
            var s', answer := Finished(st.store, p.handle, p.request, p.statement), Rows(TableOf(p.columns, p.tuples));
            Ends(st, c, s', answer) && Step(config, st, Done(c)) == Ended(st, c, s', answer)
  {
    var p := st.conns[c].progress;
    FinishedShape(st.store, p.handle, p.request, p.statement);
    hide Finished, OnlyHandle, Executed;
  }

  lemma RunningIsNew(st: Server, c: ConnId)
    requires RequestsMatch(st) && c in st.conns && st.conns[c].progress.Stepping?
    ensures st.conns[c].progress.request !in st.store.executions
  {
  }

  lemma DoneKeepsInv(config: Config, st: Server, c: ConnId)
    requires Inv(st) && Enabled(st, Done(c))
    ensures Inv(Step(config, st, Done(c)))
  {
    hide StoreInv, CachesMatch, HandlesInUse, WorkInUse, AnswersMatch, RequestsMatch;
    hide Finished, Ends, Step, TableOf, Ended;
    var p := st.conns[c].progress;
    RunningIsNew(st, c);
    DoneEnds(config, st, c);
    FinishedKeepsInv(st.store, p.handle, p.request, p.statement);
    var s' := Finished(st.store, p.handle, p.request, p.statement);
    EndedKeepsInv(st, c, s', Rows(TableOf(p.columns, p.tuples)));
  }

  lemma FailureEnds(config: Config, st: Server, c: ConnId, error: int, rollback: bool)
    requires Enabled(st, StepFails(c, error, rollback))
    ensures var p := st.conns[c].progress;
            var s' := Failed(st.store, p.handle, p.request, p.statement, rollback);
            && Ends(st, c, s', SqlError(error))
            && Step(config, st, StepFails(c, error, rollback)) == Ended(st, c, s', SqlError(error))
  {
    var p := st.conns[c].progress;
    FailedShape(st.store, p.handle, p.request, p.statement, rollback);
    hide Failed, OnlyHandle, Executed;
  }

  lemma StepFailsKeepsInv(config: Config, st: Server, c: ConnId, error: int, rollback: bool)
    requires Inv(st) && Enabled(st, StepFails(c, error, rollback))
    ensures Inv(Step(config, st, StepFails(c, error, rollback)))
  {
    hide StoreInv, CachesMatch, HandlesInUse, WorkInUse, AnswersMatch, RequestsMatch, Failed, Ends, Step, Ended;
    var p := st.conns[c].progress;
    RunningIsNew(st, c);
    FailureEnds(config, st, c, error, rollback);
    FailedKeepsInv(st.store, p.handle, p.request, p.statement, rollback);
    var s' := Failed(st.store, p.handle, p.request, p.statement, rollback);
    EndedKeepsInv(st, c, s', SqlError(error));
  }

  /** Every step keeps the invariant. */
  lemma StepKeepsInv(config: Config, st: Server, e: Event)
    requires Inv(st) && Enabled(st, e)
    ensures Inv(Step(config, st, e))
  {
    hide Inv;
    var c := e.conn;
    match e
    case Connect(_) => ConnectKeepsInv(st, c);
    case Disconnect(_) => DisconnectKeepsInv(st, c);
    case Receive(_, r, req) => ReceiveKeepsInv(config, st, c, r, req);
    case Open(_) => OpenKeepsInv(st, c);
    case OpenFails(_, error) => AnsweredKeepsInv(st, c, st.conns[c].progress.request, SqlError(error));
    case PrepareBusy(_) =>
    case PrepareFails(_, error) => AnsweredKeepsInv(st, c, st.conns[c].progress.request, SqlError(error));
    case Prepare(_, statement, columns) =>
      var Preparing(r, h) := st.conns[c].progress;
      if statement.None? {
        AnsweredKeepsInv(st, c, r, SqlError(SQLITE_MISUSE));
      } else {
        ProgressKeepsInv(st, c, Stepping(r, h, statement.value, columns, []));
      }
    case Lock(_) => LockKeepsInv(st, c);
    case Row(_, tuple) => RowKeepsInv(config, st, c, tuple);
    case Done(_) => DoneKeepsInv(config, st, c);
    case StepFails(_, error, rollback) => StepFailsKeepsInv(config, st, c, error, rollback);
    case Finalize(_) => AnsweredKeepsInv(st, c, st.conns[c].progress.request, st.conns[c].progress.answer);
  }

  lemma RowKeepsInv(config: Config, st: Server, c: ConnId, tuple: seq<SqlValue>)
    requires Inv(st) && Enabled(st, Row(c, tuple))
    ensures Inv(Step(config, st, Row(c, tuple)))
  {
    hide Inv, CanMoveOn, RequestsMatch;
    var p := st.conns[c].progress;
    RequestsPart(st);
    RowIsRectangular(st, c, tuple);
    var p' := p.(tuples := p.tuples + [tuple]);
    ProgressKeepsInv(st, c, p');
  }

  lemma RequestsPart(st: Server)
    requires Inv(st)
    ensures RequestsMatch(st)
  {
  }

  lemma RowIsRectangular(st: Server, c: ConnId, tuple: seq<SqlValue>)
    requires RequestsMatch(st) && Enabled(st, Row(c, tuple))
    ensures var p := st.conns[c].progress; CanMoveOn(st, c, p.(tuples := p.tuples + [tuple]))
  {
    assert Rectangular(st.conns[c].progress.columns, st.conns[c].progress.tuples);
  }

  /** Every reachable state satisfies the invariant. */
  lemma {:induction false} RunKeepsInv(config: Config, st: Server, events: seq<Event>)
    requires Inv(st) && Run(config, st, events).Some?
    ensures Inv(Run(config, st, events).value)
    decreases |events|
  {
    hide Inv;
    if events != [] {
      StepKeepsInv(config, st, events[0]);
      RunKeepsInv(config, Step(config, st, events[0]), events[1..]);
    }
  }

  lemma StartInv()
    ensures Inv(START)
  {
    EmptyStoreInv();
  }
}
