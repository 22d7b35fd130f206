/**
 * The handle cache (get_database_connection and handle_delete_db in RequestHandler.cpp): which
 * file a connection's queries reach.
 */
module Caching {
  import opened Wrappers
  import opened Store
  import opened StoreProofs
  import opened Server
  import opened ServerProofs
  import Names

  // ----- Handles and files along a run -----

  ghost predicate SameHandle(x: Handle, y: Handle) {
    x.owner == y.owner && x.db == y.db && x.file == y.file && x.removals == y.removals
  }

  /** Open handles keep their file, closed ones do not come back, files keep name and generation. */
  ghost predicate Persists(s: Store, s': Store) {
    && s.nextHandle <= s'.nextHandle
    && (forall h :: h in s'.handles ==>
          if h in s.handles then SameHandle(s'.handles[h], s.handles[h]) else s.nextHandle <= h)
    && (forall g :: g in s.files ==> g in s'.files && SameKey(s'.files[g], s.files[g]))
  }

  lemma PersistsTransitive(s: Store, s': Store, s'': Store)
    requires Persists(s, s') && Persists(s', s'')
    requires forall h :: h in s.handles ==> h < s.nextHandle
    ensures Persists(s, s'')
  {
    forall g | g in s.files ensures g in s''.files && SameKey(s''.files[g], s.files[g]) {
      assert g in s'.files && SameKey(s'.files[g], s.files[g]);
    }
  }

  /** Statements change neither the set of handles nor that of files. */
  ghost predicate Rearranges(s: Store, s': Store) {
    && s'.nextHandle == s.nextHandle && s'.nextFile == s.nextFile && s'.folder == s.folder && s'.removals == s.removals
    && s'.handles.Keys == s.handles.Keys && (forall h :: h in s.handles ==> SameHandle(s'.handles[h], s.handles[h]))
    && s'.files.Keys == s.files.Keys && (forall g :: g in s.files ==> SameKey(s'.files[g], s.files[g]))
  }

  lemma DiscardedRearranges(s: Store, h: HandleId)
    requires ValidHandle(s, h)
    ensures Rearranges(s, Discarded(s, h))
  {
  }

  lemma CommittedRearranges(s: Store, h: HandleId, finisher: RequestId)
    requires ValidHandle(s, h) && s.handles[h].work.Some?
    ensures Rearranges(s, Committed(s, h, finisher))
  {
  }

  lemma LockedRearranges(s: Store, h: HandleId)
    requires ValidHandle(s, h)
    ensures Rearranges(s, Locked(s, h))
  {
  }

  lemma RearrangesTransitive(s: Store, s': Store, s'': Store)
    requires Rearranges(s, s') && Rearranges(s', s'')
    ensures Rearranges(s, s'')
  {
    assert forall g :: g in s.files <==> g in s'.files;
    assert forall h :: h in s.handles <==> h in s'.handles;
    forall g | g in s.files ensures SameKey(s''.files[g], s.files[g]) {
      assert SameKey(s'.files[g], s.files[g]);
    }
    forall h | h in s.handles ensures SameHandle(s''.handles[h], s.handles[h]) {
      assert SameHandle(s'.handles[h], s.handles[h]);
    }
  }

  lemma WrittenRearranges(s: Store, h: HandleId, r: RequestId, effect: Effect)
    requires ValidHandle(s, h) && s.handles[h].work.Some?
    ensures Rearranges(s, Written(s, h, r, effect))
  {
  }

  lemma NotedRearranges(s: Store, h: HandleId, r: RequestId, statement: Statement, done: bool)
    requires h in s.handles
    ensures Rearranges(s, Noted(s, h, r, statement, done))
  {
  }

  lemma FinishedRearranges(s: Store, h: HandleId, r: RequestId, statement: Statement)
    requires CanFinish(s, h, statement)
    ensures Rearranges(s, Finished(s, h, r, statement))
  {
    var s1 := Noted(s, h, r, statement, true);
    NotedRearranges(s, h, r, statement, true);
    match statement
    case Read =>
    case Write(effect) =>
      WrittenRearranges(s1, h, r, effect);
      var s2 := Written(s1, h, r, effect);
      RearrangesTransitive(s, s1, s2);
      if s.handles[h].explicit.None? {
        CommittedRearranges(s2, h, r);
        RearrangesTransitive(s, s2, Committed(s2, h, r));
      }
      hide Rearranges;
    case Begin(_) => 
      assert Rearranges(s1, Begun(s1, h, r));
      RearrangesTransitive(s, s1, Begun(s1, h, r));
    case Commit =>
      if s.handles[h].work.Some? {
        CommittedRearranges(s1, h, r);
        RearrangesTransitive(s, s1, Committed(s1, h, r));
      } else {
        DiscardedRearranges(s1, h);
        RearrangesTransitive(s, s1, Discarded(s1, h));
      }
      hide Committed, Discarded, Noted;
    case Rollback =>
      DiscardedRearranges(s1, h);
      RearrangesTransitive(s, s1, Discarded(s1, h));
      hide Rearranges;
  }

  lemma FailedRearranges(s: Store, h: HandleId, r: RequestId, statement: Statement, rollback: bool)
    requires ValidHandle(s, h)
    ensures Rearranges(s, Failed(s, h, r, statement, rollback))
  {
    var s1 := Noted(s, h, r, statement, false);
    NotedRearranges(s, h, r, statement, false);
    if s.handles[h].explicit.None? || rollback {
      DiscardedRearranges(s1, h);
      RearrangesTransitive(s, s1, Discarded(s1, h));
    }
    hide Rearranges;
  }

  // ----- Successful deletes -----

  /** The event removes the file of this name from the folder. */
  predicate Deletes(config: Config, st: Server, e: Event, name: string)
    requires Enabled(st, e)
  {
    && e.Receive?
    && var d := Dispatched(config, st.conns[e.conn].authenticated, e.content);
       d.DeleteDb? && d.name == name && name in st.store.folder
  }

  function CountDeletes(config: Config, st: Server, events: seq<Event>, name: string): nat
    requires Run(config, st, events).Some?
    decreases |events|
  {
    if events == [] then 0 else
    (if Deletes(config, st, events[0], name) then 1 else 0)
      + CountDeletes(config, Step(config, st, events[0]), events[1..], name)
  }

  ghost predicate Advances(config: Config, st: Server, e: Event)
    requires Enabled(st, e)
  {
    var s, s' := st.store, Step(config, st, e).store;
    && Persists(s, s')
    && forall name :: Removals(s', name) == Removals(s, name) + if Deletes(config, st, e, name) then 1 else 0
  }

  lemma RearrangingAdvances(config: Config, st: Server, e: Event)
    requires Enabled(st, e) && !e.Receive? && Rearranges(st.store, Step(config, st, e).store)
    ensures Advances(config, st, e)
  {
    var s, s' := st.store, Step(config, st, e).store;
    hide Step;
    assert forall h :: h in s'.handles <==> h in s.handles;
    assert forall g :: g in s'.files <==> g in s.files;
  }

  lemma CreatedPersists(s: Store, name: string)
    requires s.nextFile !in s.files
    ensures Persists(s, Created(s, name)) && Created(s, name).removals == s.removals
    ensures Created(s, name).handles == s.handles && Created(s, name).nextHandle == s.nextHandle
  {
  }

  lemma AttachedPersists(s: Store, owner: ConnId, db: string, name: string)
    requires name in s.folder && s.nextHandle !in s.handles
    ensures Persists(s, Attached(s, owner, db, name)) && Attached(s, owner, db, name).removals == s.removals
  {
  }

  lemma OpenedPersists(s: Store, owner: ConnId, db: string, name: string)
    requires s.nextFile !in s.files && forall h :: h in s.handles ==> h < s.nextHandle
    ensures Persists(s, Opened(s, owner, db, name)) && Opened(s, owner, db, name).removals == s.removals
  {
    if name in s.folder {
      AttachedPersists(s, owner, db, name);
    } else {
      CreatedPersists(s, name);
      var s1 := Created(s, name);
      assert name in s1.folder;
      hide Created, Persists;
      AttachedPersists(s1, owner, db, name);
      PersistsTransitive(s, s1, Attached(s1, owner, db, name));
    }
  }

  lemma OpenAdvances(config: Config, st: Server, c: ConnId)
    requires HandlesMatch(st.store) && NamesMatch(st.store) && Enabled(st, Open(c))
    ensures Advances(config, st, Open(c))
  {
    assert st.store.nextFile !in st.store.files;
    hide NamesMatch;
    var p := st.conns[c].progress;
    OpenedPersists(st.store, c, p.db, p.name);
    hide HandlesMatch, Opened;
    if p.db in st.conns[c].databases {
      assert Rearranges(st.store, st.store);
      RearrangingAdvances(config, st, Open(c));
    } else {
      assert Step(config, st, Open(c)).store == Opened(st.store, c, p.db, p.name);
    }
  }

  lemma DeletedDbPersists(st: Server, c: ConnId, db: string, name: string)
    requires c in st.conns
    ensures var s' := DeletedDb(st, c, db, name).store;
            && Persists(st.store, s')
            && forall n ::
                 Removals(s', n) == Removals(st.store, n) + if n == name && name in st.store.folder then 1 else 0
  {
  }

  lemma ReceiveAdvances(config: Config, st: Server, c: ConnId, r: RequestId, req: Request)
    requires Enabled(st, Receive(c, r, req))
    ensures Advances(config, st, Receive(c, r, req))
  {
    var st' := st.(received := st.received + {r});
    var d := Dispatched(config, st.conns[c].authenticated, req);
    hide Dispatched;
    if d.DeleteDb? {
      DeletedDbPersists(st', c, d.db, d.name);
      assert Step(config, st, Receive(c, r, req)).store == DeletedDb(st', c, d.db, d.name).store;
      hide DeletedDb, Step;
    } else {
      assert Step(config, st, Receive(c, r, req)).store == st.store;
      hide Step;
    }
  }

  lemma DisconnectAdvances(config: Config, st: Server, c: ConnId)
    requires Enabled(st, Disconnect(c))
    ensures Advances(config, st, Disconnect(c))
  {
  }

  lemma StepRearranges(config: Config, st: Server, e: Event)
    requires Enabled(st, e) && !e.Receive? && !e.Open? && !e.Connect? && !e.Disconnect?
    ensures Rearranges(st.store, Step(config, st, e).store)
  {
    var p := st.conns[e.conn].progress;
    if e.Done? {
      hide Rearranges, Ends;
      DoneEnds(config, st, e.conn);
      FinishedRearranges(st.store, p.handle, p.request, p.statement);
      hide Step, Finished;
    } else if e.StepFails? {
      hide Rearranges, Ends;
      FailureEnds(config, st, e.conn, e.error, e.rollback);
      FailedRearranges(st.store, p.handle, p.request, p.statement, e.rollback);
      hide Step, Failed;
    } else if e.Lock? {
      hide Rearranges;
      LockedRearranges(st.store, p.handle);
    } else {
      assert Step(config, st, e).store == st.store;
    }
  }

  lemma StepAdvances(config: Config, st: Server, e: Event)
    requires Inv(st) && Enabled(st, e)
    ensures Advances(config, st, e)
  {
    assert HandlesMatch(st.store) && NamesMatch(st.store);
    hide Inv, Advances, Rearranges, Step;
    if e.Open? {
      OpenAdvances(config, st, e.conn);
    } else if e.Receive? {
      ReceiveAdvances(config, st, e.conn, e.request, e.content);
    } else if e.Disconnect? {
      DisconnectAdvances(config, st, e.conn);
    } else if e.Connect? {
      ConnectAdvances(config, st, e.conn);
    } else {
      StepRearranges(config, st, e);
      RearrangingAdvances(config, st, e);
    }
  }

  lemma ConnectAdvances(config: Config, st: Server, c: ConnId)
    requires Enabled(st, Connect(c))
    ensures Advances(config, st, Connect(c))
  {
  }

  /** Along a run handles and files persist, and removals count the successful deletes. */
  lemma {:induction false} RunAdvances(config: Config, st: Server, events: seq<Event>, name: string)
    requires Inv(st) && Run(config, st, events).Some?
    ensures var st' := Run(config, st, events).value;
            && Persists(st.store, st'.store)
            && Removals(st'.store, name) == Removals(st.store, name) + CountDeletes(config, st, events, name)
    decreases |events|
  {
    if events == [] {
      hide Inv;
    } else {
      var st1 := Step(config, st, events[0]);
      StepAdvances(config, st, events[0]);
      StepKeepsInv(config, st, events[0]);
      assert forall h :: h in st.store.handles ==> h < st.store.nextHandle by { assert HandlesMatch(st.store); }
      RunAdvances(config, st1, events[1..], name);
      hide Inv, Step;
      PersistsTransitive(st.store, st1.store, Run(config, st, events).value.store);
    }
  }

  /** A handle as it is opened: its file is the one the folder has under that name. */
  ghost predicate JustOpened(s: Store, h: HandleId) {
    ValidHandle(s, h) && s.handles[h].removals == Removals(s, s.files[s.handles[h].file].name)
  }

  lemma OpenedIsJustOpened(config: Config, st: Server, c: ConnId)
    requires Inv(st) && Enabled(st, Open(c)) && st.conns[c].progress.db !in st.conns[c].databases
    ensures var s' := Step(config, st, Open(c)).store;
            JustOpened(s', st.store.nextHandle)
            && s'.files[s'.handles[st.store.nextHandle].file].name == st.conns[c].progress.name
  {
    assert NamesMatch(st.store);
    hide Inv, StoreInv;
    var p := st.conns[c].progress;
    assert Step(config, st, Open(c)).store == Opened(st.store, c, p.db, p.name);
    hide Step;
    OpenedHasTheFile(st.store, c, p.db, p.name);
  }

  lemma OpenedHasTheFile(s: Store, owner: ConnId, db: string, name: string)
    requires NamesMatch(s)
    ensures var s' := Opened(s, owner, db, name);
            JustOpened(s', s.nextHandle) && s'.files[s'.handles[s.nextHandle].file].name == name
  {
    if name in s.folder {
      assert IsCurrent(s, s.files[s.folder[name]]);
    }
    hide NamesMatch;
  }

  /** For one name, the file is determined by the removals before it. */
  lemma FileIsItsGeneration(s: Store, h: HandleId, k: HandleId)
    requires NamesMatch(s) && HandlesMatch(s) && ValidHandle(s, h) && ValidHandle(s, k)
    requires s.files[s.handles[h].file].name == s.files[s.handles[k].file].name
    ensures s.handles[h].file == s.handles[k].file <==> s.handles[h].removals == s.handles[k].removals
  {
    if s.handles[h].removals == s.handles[k].removals {
      assert SameKey(s.files[s.handles[h].file], s.files[s.handles[k].file]);
    }
  }

  /**
   * Two handles, on whatever connections, opened under names of one file share the file exactly
   * when no delete of that name succeeded between the two openings.
   */
  lemma HandlesShareGeneration(config: Config, st: Server, events: seq<Event>, h: HandleId, k: HandleId)
    requires Inv(st) && Run(config, st, events).Some?
    requires JustOpened(st.store, h)
    requires var s' := Run(config, st, events).value.store;
             && JustOpened(s', k) && ValidHandle(s', h)
             && s'.files[s'.handles[h].file].name == s'.files[s'.handles[k].file].name
    ensures var s' := Run(config, st, events).value.store;
            var name := s'.files[s'.handles[k].file].name;
            s'.handles[h].file == s'.handles[k].file <==> CountDeletes(config, st, events, name) == 0
  {
    hide Inv, Run, CountDeletes, NamesMatch, HandlesMatch, Removals;
    var s, s' := st.store, Run(config, st, events).value.store;
    var name := s'.files[s'.handles[k].file].name;
    RunAdvances(config, st, events, name);
    RunKeepsInv(config, st, events);
    InvParts(st);
    InvParts(Run(config, st, events).value);
    FileIsItsGeneration(s', h, k);
    assert h < s.nextHandle by { KnownHandles(s, h); }
    assert SameHandle(s'.handles[h], s.handles[h]);
    assert SameKey(s'.files[s.handles[h].file], s.files[s.handles[h].file]);
  }

  lemma InvParts(st: Server)
    requires Inv(st)
    ensures CachesMatch(st) && NamesMatch(st.store) && HandlesMatch(st.store)
  {
  }

  lemma KnownHandles(s: Store, h: HandleId)
    requires HandlesMatch(s) && h in s.handles
    ensures h < s.nextHandle
  {
  }

  // ----- One db string, one handle -----

  /** The event may drop the handle that connection c has cached under db. */
  predicate DropsHandle(config: Config, st: Server, e: Event, c: ConnId, db: string)
    requires Enabled(st, e)
  {
    && e.conn == c
    && (e.Disconnect?
        || (e.Receive?
            && var d := Dispatched(config, st.conns[c].authenticated, e.content);
               d.DeleteDb? && d.db == db && d.name in st.store.folder))
  }

  predicate NeverDropsHandle(config: Config, st: Server, events: seq<Event>, c: ConnId, db: string)
    requires Run(config, st, events).Some?
    decreases |events|
  {
    events == [] ||
    (!DropsHandle(config, st, events[0], c, db)
     && NeverDropsHandle(config, Step(config, st, events[0]), events[1..], c, db))
  }

  lemma StepKeepsCached(config: Config, st: Server, e: Event, c: ConnId, db: string)
    requires Enabled(st, e) && !DropsHandle(config, st, e, c, db)
    requires c in st.conns && db in st.conns[c].databases
    ensures var st' := Step(config, st, e);
            && c in st'.conns && db in st'.conns[c].databases
            && st'.conns[c].databases[db] == st.conns[c].databases[db]
  {
    if e.Receive? {
      ReceiveKeepsCached(config, st, e, c, db);
    } else {
      QueryStepKeepsCached(config, st, e, c, db);
    }
    hide Step;
  }

  lemma ReceiveKeepsCached(config: Config, st: Server, e: Event, c: ConnId, db: string)
    requires Enabled(st, e) && !DropsHandle(config, st, e, c, db) && e.Receive?
    requires c in st.conns && db in st.conns[c].databases
    ensures var st' := Step(config, st, e);
            && c in st'.conns && db in st'.conns[c].databases
            && st'.conns[c].databases[db] == st.conns[c].databases[db]
  {
    hide Dispatched, Removed, Closed;
  }

  lemma QueryStepKeepsCached(config: Config, st: Server, e: Event, c: ConnId, db: string)
    requires Enabled(st, e) && !e.Receive? && (e.Disconnect? ==> e.conn != c)
    requires c in st.conns && db in st.conns[c].databases
    ensures var st' := Step(config, st, e);
            && c in st'.conns && db in st'.conns[c].databases
            && st'.conns[c].databases[db] == st.conns[c].databases[db]
  {
    hide Closed, Locked, Finished, Failed, Opened, CanLock, CanFinish, TableOf;
  }

  /**
   * Until the connection ends or deletes that very string, all its queries with the same db
   * string run on the same handle: it stays cached, and the cache is what Open uses.
   */
  lemma {:induction false} SameStringSameHandle(config: Config, st: Server, events: seq<Event>, c: ConnId, db: string)
    requires Run(config, st, events).Some? && c in st.conns && db in st.conns[c].databases
    requires NeverDropsHandle(config, st, events, c, db)
    ensures var st' := Run(config, st, events).value;
            && c in st'.conns && db in st'.conns[c].databases
            && st'.conns[c].databases[db] == st.conns[c].databases[db]
            && (Enabled(st', Open(c)) && st'.conns[c].progress.db == db ==>
                  Step(config, st', Open(c)).conns[c].progress.handle == st.conns[c].databases[db])
    decreases |events|
  {
    if events != [] {
      StepKeepsCached(config, st, events[0], c, db);
      SameStringSameHandle(config, Step(config, st, events[0]), events[1..], c, db);
    }
  }

  // ----- Is the cached handle the file in the folder? -----

  predicate PlainRequest(e: Event) {
    e.Receive? && e.content.Request? && e.content.db.Text? ==> Names.Ordinary(e.content.db.text)
  }

  predicate OnlyPlainRequestsOf(events: seq<Event>, c: ConnId) {
    forall i :: 0 <= i < |events| ==> events[i].conn == c && PlainRequest(events[i])
  }

  /** All cached handles belong to one connection and are files of the folder, under their own names. */
  ghost predicate AllCurrent(st: Server, c: ConnId) {
    && (forall c' :: c' in st.conns ==> c' == c)
    && (c in st.conns && st.conns[c].progress.Opening? ==> st.conns[c].progress.name == st.conns[c].progress.db)
    && forall h :: h in st.store.handles ==> IsCurrentHandle(st.store, h)
  }

  ghost predicate IsCurrentHandle(s: Store, h: HandleId) {
    h in s.handles && s.handles[h].db in s.folder && s.folder[s.handles[h].db] == s.handles[h].file
  }

  lemma PlainDispatch(config: Config, authenticated: bool, req: Request)
    requires Names.Resolved(config.folder)
    requires req.Request? && req.db.Text? ==> Names.Ordinary(req.db.text)
    ensures var d := Dispatched(config, authenticated, req);
            (d.RunQuery? || d.DeleteDb?) ==> d.name == d.db
  {
    if req.Request? && req.db.Text? {
      Names.PlainNamesDenoteThemselves(config.folder, req.db.text);
    }
    hide Names.Child, Names.Resolved;
  }

  lemma OneConnectionOwnsAll(st: Server, c: ConnId, h: HandleId)
    requires CachesMatch(st) && AllCurrent(st, c) && h in st.store.handles
    ensures c in st.conns && st.store.handles[h].db in st.conns[c].databases
    ensures st.conns[c].databases[st.store.handles[h].db] == h
  {
  }

  lemma RearrangingKeepsCurrent(s: Store, s': Store, h: HandleId)
    requires Rearranges(s, s') && IsCurrentHandle(s, h)
    ensures IsCurrentHandle(s', h)
  {
    assert SameHandle(s'.handles[h], s.handles[h]);
  }

  lemma RearrangingStepKeepsCurrent(config: Config, st: Server, e: Event, c: ConnId)
    requires AllCurrent(st, c) && Enabled(st, e) && e.conn == c
    requires !e.Receive? && !e.Open? && !e.Connect? && !e.Disconnect?
    requires Rearranges(st.store, Step(config, st, e).store)
    ensures AllCurrent(Step(config, st, e), c)
  {
    var st' := Step(config, st, e);
    assert st'.conns.Keys == st.conns.Keys && !st'.conns[c].progress.Opening?;
    hide Step;
    forall h | h in st'.store.handles ensures IsCurrentHandle(st'.store, h) {
      RearrangingKeepsCurrent(st.store, st'.store, h);
    }
  }

  lemma OpenKeepsCurrent(config: Config, st: Server, c: ConnId)
    requires AllCurrent(st, c) && NamesMatch(st.store) && Enabled(st, Open(c))
    ensures AllCurrent(Step(config, st, Open(c)), c)
  {
    hide NamesMatch;
    var st' := Step(config, st, Open(c));
    forall h | h in st'.store.handles ensures IsCurrentHandle(st'.store, h) {
      if h in st.store.handles {
        assert IsCurrentHandle(st.store, h);
      }
    }
  }

  lemma DeletingKeepsCurrent(st: Server, c: ConnId, name: string)
    requires CachesMatch(st) && AllCurrent(st, c) && c in st.conns && st.conns[c].progress.Idle?
    ensures AllCurrent(DeletedDb(st, c, name, name), c)
  {
    var st' := DeletedDb(st, c, name, name);
    forall h | h in st'.store.handles ensures IsCurrentHandle(st'.store, h) {
      assert IsCurrentHandle(st.store, h);
      OneConnectionOwnsAll(st, c, h);
    }
  }

  lemma ReceiveKeepsCurrent(config: Config, st: Server, c: ConnId, r: RequestId, req: Request)
    requires Names.Resolved(config.folder) && CachesMatch(st) && AllCurrent(st, c)
    requires Enabled(st, Receive(c, r, req)) && PlainRequest(Receive(c, r, req))
    ensures AllCurrent(ReceiveStep(config, st, c, r, req), c)
  {
    PlainDispatch(config, st.conns[c].authenticated, req);
    var st' := ReceiveStep(config, st, c, r, req);
    match Dispatched(config, st.conns[c].authenticated, req)
    case DeleteDb(db, name) =>
      DeletingKeepsCurrent(st.(received := st.received + {r}), c, name) by {
        assert CachesMatch(st.(received := st.received + {r}));
      }
      hide DeletedDb, CachesMatch, Dispatched;
    case _ =>
      hide CachesMatch;
      assert st'.store == st.store;
  }

  lemma StepKeepsCurrent(config: Config, st: Server, e: Event, c: ConnId)
    requires Names.Resolved(config.folder) && Inv(st) && AllCurrent(st, c)
    requires Enabled(st, e) && e.conn == c && PlainRequest(e)
    ensures AllCurrent(Step(config, st, e), c)
  {
    assert CachesMatch(st) && NamesMatch(st.store);
    hide Inv, StoreInv, NamesMatch, CachesMatch;
    if e.Receive? {
      ReceiveKeepsCurrent(config, st, c, e.request, e.content);
    } else if e.Open? {
      hide Step, AllCurrent;
      OpenKeepsCurrent(config, st, c);
    } else if e.Disconnect? {
      hide Step, AllCurrent;
      DisconnectKeepsCurrent(config, st, c);
    } else if e.Connect? {
      hide IsCurrentHandle;
    } else {
      hide Step, AllCurrent, Rearranges;
      StepRearranges(config, st, e);
      RearrangingStepKeepsCurrent(config, st, e, c);
    }
  }

  lemma DisconnectKeepsCurrent(config: Config, st: Server, c: ConnId)
    requires AllCurrent(st, c) && Enabled(st, Disconnect(c))
    ensures AllCurrent(Step(config, st, Disconnect(c)), c)
  {
    var st' := Step(config, st, Disconnect(c));
    forall h | h in st'.store.handles ensures IsCurrentHandle(st'.store, h) {
      assert IsCurrentHandle(st.store, h);
    }
  }

  lemma {:induction false} RunKeepsCurrent(config: Config, st: Server, events: seq<Event>, c: ConnId)
    requires Names.Resolved(config.folder) && Inv(st) && AllCurrent(st, c)
    requires Run(config, st, events).Some? && OnlyPlainRequestsOf(events, c)
    ensures AllCurrent(Run(config, st, events).value, c)
    decreases |events|
  {
    hide Inv, AllCurrent;
    if events != [] {
      assert events[0].conn == c && PlainRequest(events[0]);
      StepKeepsInv(config, st, events[0]);
      StepKeepsCurrent(config, st, events[0], c);
      assert OnlyPlainRequestsOf(events[1..], c);
      RunKeepsCurrent(config, Step(config, st, events[0]), events[1..], c);
    }
  }

  /**
   * While a single connection uses plain names only, every handle it has cached is the file
   * that the folder has under that name.
   */
  lemma SingleClientSeesTheFolder(config: Config, events: seq<Event>, c: ConnId, db: string)
    requires Names.Resolved(config.folder) && OnlyPlainRequestsOf(events, c) && Run(config, START, events).Some?
    requires var st := Run(config, START, events).value; c in st.conns && db in st.conns[c].databases
    ensures var st := Run(config, START, events).value;
            var h := st.conns[c].databases[db];
            h in st.store.handles && db in st.store.folder && st.store.folder[db] == st.store.handles[h].file
  {
    hide Inv, Run, CachesMatch, OnlyPlainRequestsOf, Names.Resolved;
    StartInv();
    RunKeepsInv(config, START, events);
    RunKeepsCurrent(config, START, events, c);
    var st := Run(config, START, events).value;
    InvParts(st);
    CachedHandleIsOpen(st, c, db);
    assert IsCurrentHandle(st.store, st.conns[c].databases[db]);
  }

  lemma CachedHandleIsOpen(st: Server, c: ConnId, db: string)
    requires CachesMatch(st) && c in st.conns && db in st.conns[c].databases
    ensures IsCached(st, st.conns[c].databases[db], c, db)
  {
  }

  /**
   * Both conditions are needed. A successful delete takes the file out of the folder for every
   * handle on it, but closes only the handle that the deleting connection has cached under the
   * very string it deleted: handles of other connections, and handles cached under another
   * spelling of the name, stay open on a file that is no longer in the folder.
   */
  lemma DeleteLeavesOtherHandles(st: Server, c: ConnId, db: string, name: string, h: HandleId)
    requires Inv(st) && c in st.conns && name in st.store.folder
    requires h in st.store.handles && st.store.handles[h].file == st.store.folder[name]
    ensures var s' := DeletedDb(st, c, db, name).store;
            && (h in s'.handles <==> !(st.store.handles[h].owner == c && st.store.handles[h].db == db))
            && (h in s'.handles ==> s'.handles[h] == st.store.handles[h])
            && forall n :: n in s'.folder ==> s'.folder[n] != st.store.handles[h].file
  {
    hide Inv, CachesMatch, NamesMatch;
    InvParts(st);
    RemovedFromFolder(st.store, name);
    if db in st.conns[c].databases {
      CachedHandleIsOpen(st, c, db);
    }
    OwnedHandleIsCached(st, c, db, h);
    hide Removed;
  }

  lemma OwnedHandleIsCached(st: Server, c: ConnId, db: string, h: HandleId)
    requires CachesMatch(st) && c in st.conns && h in st.store.handles
    ensures st.store.handles[h].owner == c && st.store.handles[h].db == db ==>
              db in st.conns[c].databases && st.conns[c].databases[db] == h
  {
  }

  lemma RemovedFromFolder(s: Store, name: string)
    requires NamesMatch(s) && name in s.folder
    ensures forall n :: n in Removed(s, name).folder ==> Removed(s, name).folder[n] != s.folder[name]
  {
    forall n | n in s.folder && n != name ensures s.folder[n] != s.folder[name] {
      assert s.files[s.folder[n]].name == n && s.files[s.folder[name]].name == name;
    }
  }
}
