/**
 * What the statements of a transaction mean: what their handle sees afterwards, what is committed,
 * and how the transaction ends (README.md:310-320, sqlite3_wrapper/SQLStatement.h:41-53).
 */
module Transactions {
  import opened Wrappers
  import opened Store
  import opened StoreProofs
  import opened Server
  import opened ServerProofs
  import opened ServerTheorems

  /** The contents that a handle reads: its own uncommitted ones, or the committed ones of its file. */
  ghost function Sees(s: Store, h: HandleId): Contents
    requires ValidHandle(s, h)
  {
    if s.handles[h].work.Some? then s.handles[h].work.value.contents else s.files[s.handles[h].file].contents
  }

  /** Committed contents and history of all files, and what all other handles have, stay. */
  ghost predicate OnlyOwnWork(s: Store, s': Store, h: HandleId) {
    && s'.files.Keys == s.files.Keys && s'.handles.Keys == s.handles.Keys && s'.folder == s.folder
    && (forall g :: g in s.files ==>
          s'.files[g].contents == s.files[g].contents && s'.files[g].history == s.files[g].history)
    && (forall k :: k in s.handles && k != h ==> s'.handles[k] == s.handles[k])
  }

  /** Handle h holds no lock and has neither a transaction nor uncommitted work. */
  ghost predicate IsClean(s: Store, h: HandleId)
    requires ValidHandle(s, h)
  {
    && s.handles[h].explicit.None? && s.handles[h].work.None?
    && s.files[s.handles[h].file].writer != Some(h)
  }

  // ----- One statement -----

  /** BEGIN opens a transaction where there is none, and with IMMEDIATE holds the write lock. */
  lemma BeginStarts(s: Store, h: HandleId, r: RequestId, immediate: bool)
    requires LocksMatch(s) && CanFinish(s, h, Begin(immediate))
    ensures var s' := Finished(s, h, r, Begin(immediate));
            && OnlyOwnWork(s, s', h) && ValidHandle(s', h) && s.handles[h].explicit.None?
            && s'.handles[h].explicit == Some(r) && Sees(s', h) == Sees(s, h)
            && (immediate ==> s'.files[s'.handles[h].file].writer == Some(h))
  {
  }

  /** A write changes what its own handle sees; inside a transaction it is committed for nobody else yet. */
  lemma WriteInTransaction(s: Store, h: HandleId, r: RequestId, effect: Effect)
    requires LocksMatch(s) && CanFinish(s, h, Write(effect)) && s.handles[h].explicit.Some?
    ensures var s' := Finished(s, h, r, Write(effect));
            && OnlyOwnWork(s, s', h) && ValidHandle(s', h)
            && Sees(s', h) == effect(Sees(s, h)) && s'.handles[h].explicit == s.handles[h].explicit
            && s'.files[s'.handles[h].file].writer == Some(h)
            && r in s'.executions && s'.executions[r].transaction == s.handles[h].explicit
  {
  }

  /** Outside a transaction a write is committed by itself, and the lock is free again. */
  lemma WriteByItself(s: Store, h: HandleId, r: RequestId, effect: Effect)
    requires LocksMatch(s) && CanFinish(s, h, Write(effect)) && s.handles[h].explicit.None?
    ensures var s' := Finished(s, h, r, Write(effect));
            && ValidHandle(s', h) && IsClean(s', h)
            && s'.files[s'.handles[h].file].contents == effect(Sees(s, h))
            && r in s'.executions && s'.executions[r].transaction == None
  {
  }

  /** COMMIT, which needs a transaction, commits what the handle saw, and the lock is free again. */
  lemma CommitEnds(s: Store, h: HandleId, r: RequestId)
    requires LocksMatch(s) && CanFinish(s, h, Commit)
    ensures var s' := Finished(s, h, r, Commit);
            && s.handles[h].explicit.Some? && ValidHandle(s', h) && IsClean(s', h)
            && s'.files[s'.handles[h].file].contents == Sees(s, h)
  {
  }

  /** ROLLBACK, which needs a transaction, leaves the handle with the committed contents, and the lock is free again. */
  lemma RollbackEnds(s: Store, h: HandleId, r: RequestId)
    requires LocksMatch(s) && CanFinish(s, h, Rollback)
    ensures var s' := Finished(s, h, r, Rollback);
            && s.handles[h].explicit.Some? && OnlyOwnWork(s, s', h) && ValidHandle(s', h) && IsClean(s', h)
            && Sees(s', h) == s.files[s.handles[h].file].contents
  {
    hide LocksMatch;
    var s1 := Noted(s, h, r, Rollback, true);
    assert s1.handles == s.handles && s1.files == s.files && s1.folder == s.folder;
    assert Finished(s, h, r, Rollback) == Discarded(s1, h);
    hide Noted, Finished;
    DiscardedIsClean(s1, h);
    hide Discarded, IsClean, Sees;
  }

  /** A statement that only reads changes nothing. */
  lemma ReadChangesNothing(s: Store, h: HandleId, r: RequestId)
    requires CanFinish(s, h, Read)
    ensures var s' := Finished(s, h, r, Read);
            s'.files == s.files && s'.handles == s.handles && s'.folder == s.folder && s'.commits == s.commits
  {
  }

  /**
   * A failing statement leaves an open transaction as it was, unless SQLite gives the whole
   * transaction up; then, and outside a transaction, everything uncommitted is gone.
   */
  lemma FailureIsUndone(s: Store, h: HandleId, r: RequestId, statement: Statement, rollback: bool)
    requires LocksMatch(s) && ValidHandle(s, h)
    ensures var s' := Failed(s, h, r, statement, rollback);
            && OnlyOwnWork(s, s', h) && ValidHandle(s', h)
            && (if s.handles[h].explicit.Some? && !rollback then s'.handles == s.handles && s'.files == s.files
                else IsClean(s', h) && Sees(s', h) == s.files[s.handles[h].file].contents)
  {
    var s1 := Noted(s, h, r, statement, false);
    assert s1.handles == s.handles && s1.files == s.files && s1.folder == s.folder;
    hide Noted;
    if s.handles[h].explicit.None? || rollback {
      DiscardedIsClean(s1, h);
      hide Discarded, IsClean, Sees;
    }
  }

  lemma DiscardedIsClean(s: Store, h: HandleId)
    requires ValidHandle(s, h)
    ensures var s' := Discarded(s, h);
            && OnlyOwnWork(s, s', h) && ValidHandle(s', h) && IsClean(s', h)
            && Sees(s', h) == s.files[s.handles[h].file].contents
  {
  }

  /** The lock is granted exactly while nobody holds it, to a write or BEGIN IMMEDIATE. */
  lemma LockIsGrantedWhenFree(st: Server, c: ConnId)
    requires Inv(st) && c in st.conns && st.conns[c].progress.Stepping?
    ensures var p := st.conns[c].progress;
            && ValidHandle(st.store, p.handle)
            && (Enabled(st, Lock(c))
                <==> (p.statement.Write? || p.statement == Begin(true))
                     && st.store.files[st.store.handles[p.handle].file].writer.None?)
  {
    hide Inv, CanFinish, TextFields;
    HandleOfStatement(st, c);
    HandleIsValid(st, st.conns[c].progress.handle);
    NoOtherOwner(st, st.conns[c].progress.handle);
  }

  lemma NoOtherOwner(st: Server, h: HandleId)
    requires Inv(st) && ValidHandle(st.store, h)
    ensures st.store.files[st.store.handles[h].file].writer.None? ==> st.store.handles[h].work.None?
  {
    HandleIsValid(st, h);
    hide Inv;
  }

  /** A read can reach DONE, a write with the lock, BEGIN outside a transaction, COMMIT and ROLLBACK inside one. */
  ghost predicate MayFinish(s: Store, h: HandleId, statement: Statement)
    requires ValidHandle(s, h)
  {
    var locked := s.files[s.handles[h].file].writer == Some(h);
    var within := s.handles[h].explicit.Some?;
    match statement
    case Read => true
    case Write(_) => locked
    case Begin(immediate) => !within && (immediate ==> locked)
    case Commit => within
    case Rollback => within
  }

  /** What a statement that does not fail needs to reach DONE. */
  lemma DoneIsReached(st: Server, c: ConnId)
    requires Inv(st) && c in st.conns && st.conns[c].progress.Stepping?
    ensures var p := st.conns[c].progress;
            ValidHandle(st.store, p.handle)
            && (Enabled(st, Done(c)) <==> MayFinish(st.store, p.handle, p.statement))
  {
    hide Inv, CanFinish, MayFinish, CanLock, NeedsLock, TextFields;
    HandleOfStatement(st, c);
    var p := st.conns[c].progress;
    HandleIsValid(st, p.handle);
    FinishNeeds(st.store, p.handle, p.statement);
  }

  lemma FinishNeeds(s: Store, h: HandleId, statement: Statement)
    requires ValidHandle(s, h) && (s.handles[h].work.Some? <==> s.files[s.handles[h].file].writer == Some(h))
    ensures CanFinish(s, h, statement) <==> MayFinish(s, h, statement)
  {
  }

  lemma HandleIsValid(st: Server, h: HandleId)
    requires Inv(st) && h in st.store.handles
    ensures ValidHandle(st.store, h)
    ensures st.store.handles[h].work.Some? <==> st.store.files[st.store.handles[h].file].writer == Some(h)
  {
    assert LocksMatch(st.store);
  }

  // ----- A transaction that is given up -----

  lemma EndedIsAbandoned(s: Store, s': Store, h: HandleId, b: RequestId)
    requires TransactionsMatch(s) && h in s.handles && s.handles[h].explicit == Some(b)
    requires OnlyOwnWork(s, s', h) && s'.commits == s.commits && h in s'.handles && s'.handles[h].explicit.None?
    requires forall r :: r in s.executions ==> r in s'.executions
    ensures Abandoned(s', b)
  {
    assert s.executions[b].handle == h;
    assert forall k :: k in s.handles && k != h ==> s.handles[k].explicit != Some(b);
  }

  lemma RollbackGivesUp(s: Store, h: HandleId, r: RequestId, b: RequestId)
    requires LocksMatch(s) && TransactionsMatch(s) && CanFinish(s, h, Rollback)
    requires s.handles[h].explicit == Some(b)
    ensures Abandoned(Finished(s, h, r, Rollback), b)
  {
    RollbackEnds(s, h, r);
    RollbackMarksNothing(s, h, r);
    hide Finished, LocksMatch, TransactionsMatch, Abandoned, CanFinish;
    EndedIsAbandoned(s, Finished(s, h, r, Rollback), h, b);
  }

  lemma RollbackMarksNothing(s: Store, h: HandleId, r: RequestId)
    requires CanFinish(s, h, Rollback)
    ensures var s' := Finished(s, h, r, Rollback);
            s'.commits == s.commits && s.executions.Keys <= s'.executions.Keys
  {
  }

  lemma FailureMarksNothing(s: Store, h: HandleId, r: RequestId, statement: Statement, rollback: bool)
    requires ValidHandle(s, h)
    ensures var s' := Failed(s, h, r, statement, rollback);
            s'.commits == s.commits && s.executions.Keys <= s'.executions.Keys
  {
  }

  lemma FailureGivesUp(s: Store, h: HandleId, r: RequestId, statement: Statement, b: RequestId)
    requires LocksMatch(s) && TransactionsMatch(s) && ValidHandle(s, h) && s.handles[h].explicit == Some(b)
    ensures Abandoned(Failed(s, h, r, statement, true), b)
  {
    FailureIsUndone(s, h, r, statement, true);
    FailureMarksNothing(s, h, r, statement, true);
    hide Failed, LocksMatch, TransactionsMatch, Abandoned;
    EndedIsAbandoned(s, Failed(s, h, r, statement, true), h, b);
  }

  /** The statement of connection c has handle h, whose open transaction was begun by b. */
  ghost predicate RunsIn(st: Server, c: ConnId, h: HandleId, b: RequestId) {
    && c in st.conns && st.conns[c].progress.Stepping? && st.conns[c].progress.handle == h
    && h in st.store.handles && st.store.handles[h].explicit == Some(b)
  }

  /** SQLite gives the transaction up: a ROLLBACK is done, or a statement fails and takes it along. */
  predicate GivesUp(st: Server, e: Event)
    requires Enabled(st, e)
  {
    (e.Done? && st.conns[e.conn].progress.statement.Rollback?) || (e.StepFails? && e.rollback)
  }

  /**
   * A ROLLBACK that is done, or a failure that takes the transaction along, ends the transaction
   * without a COMMIT: the handle has no work and no lock and reads the committed contents again,
   * and no committed contents change.
   */
  lemma RollbackAbandons(config: Config, st: Server, e: Event, h: HandleId, b: RequestId)
    requires Inv(st) && Enabled(st, e) && RunsIn(st, e.conn, h, b) && GivesUp(st, e)
    ensures var s' := Step(config, st, e).store;
            && Abandoned(s', b) && OnlyOwnWork(st.store, s', h) && ValidHandle(s', h) && IsClean(s', h)
            && Sees(s', h) == st.store.files[st.store.handles[h].file].contents
  {
    var c, p := e.conn, st.conns[e.conn].progress;
    assert LocksMatch(st.store) && TransactionsMatch(st.store);
    if e.Done? {
      DoneEnds(config, st, c);
      hide Inv, Step, Abandoned, LocksMatch, TransactionsMatch, Ends, OnlyOwnWork, IsClean, Sees;
      RollbackEnds(st.store, h, p.request);
      RollbackGivesUp(st.store, h, p.request, b);
      hide Finished;
    } else {
      FailureEnds(config, st, c, e.error, true);
      hide Inv, Step, Abandoned, LocksMatch, TransactionsMatch, Ends, OnlyOwnWork, IsClean, Sees;
      FailureIsUndone(st.store, h, p.request, p.statement, true);
      FailureGivesUp(st.store, h, p.request, p.statement, b);
      hide Failed;
    }
  }

  // ----- Its writes stay lost -----

  lemma StepKeepsExecutions(config: Config, st: Server, e: Event, r: RequestId)
    requires Inv(st) && Enabled(st, e) && r in st.store.executions
    ensures r in Step(config, st, e).store.executions
    ensures Step(config, st, e).store.executions[r] == st.store.executions[r]
  {
    var c := e.conn;
    if e.Done? || e.StepFails? {
      EndKeepsExecutions(config, st, e, r);
      hide Inv, Step;
    } else if e.Receive? {
      ReceivingBeginsNothing(config, st, c, e.request, e.content);
      hide Inv, ReceiveStep;
    } else if e.Open? {
      OpeningBeginsNothing(st, c);
      hide Inv, OpenStep;
    } else {
      OtherStepsBeginNothing(config, st, e);
      hide Inv, Step;
    }
  }

  lemma EndKeepsExecutions(config: Config, st: Server, e: Event, r: RequestId)
    requires Inv(st) && Enabled(st, e) && (e.Done? || e.StepFails?) && r in st.store.executions
    ensures r in Step(config, st, e).store.executions
    ensures Step(config, st, e).store.executions[r] == st.store.executions[r]
  {
    hide Inv, Step, StoreInv;
    RunningHasNotEnded(st, e.conn);
    EndNotes(config, st, e);
  }

  lemma RunningHasNotEnded(st: Server, c: ConnId)
    requires Inv(st) && c in st.conns
    ensures st.conns[c].progress.Stepping? ==> st.conns[c].progress.request !in st.store.executions
  {
    assert RequestsMatch(st);
    hide Inv, RequestsMatch;
    if st.conns[c].progress.Stepping? {
      RunningIsNew(st, c);
    }
  }

  lemma {:induction false} ExecutionsStay(config: Config, st: Server, events: seq<Event>, r: RequestId)
    requires Inv(st) && Run(config, st, events).Some? && r in st.store.executions
    ensures r in Run(config, st, events).value.store.executions
    ensures Run(config, st, events).value.store.executions[r] == st.store.executions[r]
    decreases |events|
  {
    hide Inv, Step, Enabled;
    if events != [] {
      StepKeepsExecutions(config, st, events[0], r);
      StepKeepsInv(config, st, events[0]);
      ExecutionsStay(config, Step(config, st, events[0]), events[1..], r);
    }
  }

  /** What was written in a transaction that is abandoned is in no history, then and at any later time. */
  lemma AbandonedWritesAreLost(
    config: Config, st: Server, events: seq<Event>, b: RequestId, r: RequestId, g: Generation)
    requires Inv(st) && Abandoned(st.store, b) && Run(config, st, events).Some?
    requires r in st.store.executions && st.store.executions[r].transaction == Some(b)
    requires g in Run(config, st, events).value.store.files
    ensures Occurrences(Run(config, st, events).value.store, g, r) == 0
  {
    AbandonedForGood(config, st, events, b);
    ExecutionsStay(config, st, events, r);
    RunKeepsInv(config, st, events);
    var st' := Run(config, st, events).value;
    assert WritesMatch(st'.store);
    hide Inv, Run;
  }

  /** No write of a transaction that was rolled back is in any history along any later run. */
  lemma RolledBackWritesAreLost(
    config: Config, st: Server, e: Event, events: seq<Event>, h: HandleId, b: RequestId, r: RequestId, g: Generation)
    requires Inv(st) && Enabled(st, e) && RunsIn(st, e.conn, h, b) && GivesUp(st, e)
    requires r in st.store.executions && st.store.executions[r].transaction == Some(b)
    requires Run(config, Step(config, st, e), events).Some?
    requires g in Run(config, Step(config, st, e), events).value.store.files
    ensures Occurrences(Run(config, Step(config, st, e), events).value.store, g, r) == 0
  {
    hide Inv, Abandoned, Step, Enabled, Run, Occurrences, GivesUp, RunsIn;
    RollbackAbandons(config, st, e, h, b);
    StepKeepsExecutions(config, st, e, r);
    StepKeepsInv(config, st, e);
    AbandonedWritesAreLost(config, Step(config, st, e), events, b, r, g);
  }

  // ----- Its statements carry it -----

  ghost predicate KeepsTransactions(s: Store, s': Store) {
    forall k :: k in s.handles && k in s'.handles ==> s'.handles[k].explicit == s.handles[k].explicit
  }

  lemma ReceivingKeepsTransactions(config: Config, st: Server, c: ConnId, r: RequestId, req: Request)
    requires c in st.conns
    ensures KeepsTransactions(st.store, ReceiveStep(config, st, c, r, req).store)
  {
    var d := Dispatched(config, st.conns[c].authenticated, req);
    hide Dispatched;
    if d.DeleteDb? && d.name in st.store.folder {
      RemovedFromFolderOnly(st.store, d.name);
      hide Removed;
    }
  }

  lemma OpeningKeepsTransactions(st: Server, c: ConnId)
    requires HandlesMatch(st.store) && c in st.conns && st.conns[c].progress.Opening?
    ensures KeepsTransactions(st.store, OpenStep(st, c).store)
  {
  }

  lemma OthersKeepTransactions(config: Config, st: Server, e: Event)
    requires Enabled(st, e) && !e.Done? && !e.StepFails? && !e.Receive? && !e.Open?
    ensures KeepsTransactions(st.store, Step(config, st, e).store)
  {
    hide TableOf, CanFinish;
  }

  /** The event ends the transaction of handle h. */
  predicate EndsTransaction(st: Server, e: Event, h: HandleId)
    requires Enabled(st, e)
  {
    (e.Done? || e.StepFails?) && st.conns[e.conn].progress.handle == h
    && if e.Done? then st.conns[e.conn].progress.statement.Commit? || st.conns[e.conn].progress.statement.Rollback?
       else e.rollback
  }

  lemma FinishedGoesOn(s: Store, h: HandleId, r: RequestId, statement: Statement)
    requires LocksMatch(s) && CanFinish(s, h, statement) && s.handles[h].explicit.Some?
    requires !statement.Commit? && !statement.Rollback?
    ensures h in Finished(s, h, r, statement).handles
    ensures Finished(s, h, r, statement).handles[h].explicit == s.handles[h].explicit
  {
    match statement
    case Write(effect) =>
      WriteInTransaction(s, h, r, effect);
      hide Finished;
    case Read =>
      ReadChangesNothing(s, h, r);
      hide Finished;
    case Begin(_) =>
  }

  /** An open transaction goes on unless COMMIT or ROLLBACK is done, SQLite gives it up, or its handle closes. */
  lemma TransactionGoesOn(config: Config, st: Server, e: Event, h: HandleId, b: RequestId)
    requires Inv(st) && Enabled(st, e) && !EndsTransaction(st, e, h)
    requires h in st.store.handles && st.store.handles[h].explicit == Some(b)
    ensures h in Step(config, st, e).store.handles ==> Step(config, st, e).store.handles[h].explicit == Some(b)
  {
    var c := e.conn;
    assert LocksMatch(st.store) && HandlesMatch(st.store);
    if e.Done? || e.StepFails? {
      EndGoesOn(config, st, e, h, b);
      hide Inv, Step;
    } else if e.Receive? {
      ReceivingKeepsTransactions(config, st, c, e.request, e.content);
      hide Inv, ReceiveStep;
    } else if e.Open? {
      OpeningKeepsTransactions(st, c);
      hide Inv, OpenStep;
    } else {
      OthersKeepTransactions(config, st, e);
      hide Inv, Step;
    }
  }

  lemma EndGoesOn(config: Config, st: Server, e: Event, h: HandleId, b: RequestId)
    requires Inv(st) && Enabled(st, e) && (e.Done? || e.StepFails?) && !EndsTransaction(st, e, h)
    requires h in st.store.handles && st.store.handles[h].explicit == Some(b)
    ensures h in Step(config, st, e).store.handles && Step(config, st, e).store.handles[h].explicit == Some(b)
  {
    var c := e.conn;
    var p := st.conns[c].progress;
    assert LocksMatch(st.store);
    if e.Done? {
      DoneEnds(config, st, c);
      hide Inv, Finished, Step, LocksMatch, TableOf;
      if p.handle == h {
        FinishedGoesOn(st.store, h, p.request, p.statement);
      }
    } else {
      FailureEnds(config, st, c, e.error, e.rollback);
      hide Inv, Failed, Step, LocksMatch, TableOf;
      if p.handle == h {
        FailureIsUndone(st.store, h, p.request, p.statement, e.rollback);
      }
    }
  }

  /** A statement that ends on a handle is recorded with the transaction its handle had. */
  lemma StatementsCarryTheTransaction(config: Config, st: Server, e: Event, h: HandleId, r: RequestId)
    requires Enabled(st, e) && h in st.store.handles
    requires r !in st.store.executions && r in Step(config, st, e).store.executions
    requires Step(config, st, e).store.executions[r].handle == h
    ensures Step(config, st, e).store.executions[r].transaction == st.store.handles[h].explicit
  {
    var c := e.conn;
    if e.Done? || e.StepFails? {
      EndNotes(config, st, e);
      hide Step, Enabled;
    } else if e.Receive? {
      ReceivingBeginsNothing(config, st, c, e.request, e.content);
      hide ReceiveStep;
    } else if e.Open? {
      OpeningBeginsNothing(st, c);
      hide OpenStep;
    } else {
      OtherStepsBeginNothing(config, st, e);
      hide Step;
    }
  }

  lemma EndNotes(config: Config, st: Server, e: Event)
    requires Enabled(st, e) && (e.Done? || e.StepFails?)
    ensures var p := st.conns[e.conn].progress;
            && p.Stepping? && ValidHandle(st.store, p.handle)
            && Step(config, st, e).store.executions
               == st.store.executions[p.request :=
                    Execution(p.handle, st.store.handles[p.handle].file, p.statement,
                              st.store.handles[p.handle].explicit, e.Done?)]
  {
    var c := e.conn;
    var p := st.conns[c].progress;
    hide Finished, Failed, TableOf;
    if e.Done? {
      DoneEnds(config, st, c);
      hide Step;
      FinishedNotes(st.store, p.handle, p.request, p.statement);
    } else {
      FailureEnds(config, st, c, e.error, e.rollback);
      hide Step;
      FailedNotes(st.store, p.handle, p.request, p.statement, e.rollback);
    }
  }

  lemma FinishedNotes(s: Store, h: HandleId, r: RequestId, statement: Statement)
    requires CanFinish(s, h, statement)
    ensures var x := Finished(s, h, r, statement).executions;
            x == s.executions[r := Execution(h, s.handles[h].file, statement, s.handles[h].explicit, true)]
  {
  }

  lemma FailedNotes(s: Store, h: HandleId, r: RequestId, statement: Statement, rollback: bool)
    requires ValidHandle(s, h)
    ensures var x := Failed(s, h, r, statement, rollback).executions;
            x == s.executions[r := Execution(h, s.handles[h].file, statement, s.handles[h].explicit, false)]
  {
  }

  /** In the whole run nothing ends the transaction of handle h, nor closes it. */
  ghost predicate GoesOn(config: Config, st: Server, events: seq<Event>, h: HandleId)
    requires Run(config, st, events).Some?
    decreases |events|
  {
    events != [] ==>
      && !EndsTransaction(st, events[0], h) && h in Step(config, st, events[0]).store.handles
      && GoesOn(config, Step(config, st, events[0]), events[1..], h)
  }

  /**
   * From a BEGIN on, until its transaction ends, every statement that ends on the handle, in
   * particular every write, is one of that transaction.
   */
  lemma {:induction false} WritesCarryTheirBegin(
    config: Config, st: Server, events: seq<Event>, h: HandleId, b: RequestId, r: RequestId)
    requires Inv(st) && Run(config, st, events).Some? && GoesOn(config, st, events, h)
    requires h in st.store.handles && st.store.handles[h].explicit == Some(b)
    requires r !in st.store.executions
    ensures var s := Run(config, st, events).value.store;
            && h in s.handles && s.handles[h].explicit == Some(b)
            && (r in s.executions && s.executions[r].handle == h ==> s.executions[r].transaction == Some(b))
    decreases |events|
  {
    hide Inv, Step, Enabled, EndsTransaction;
    if events != [] {
      var st1 := Step(config, st, events[0]);
      TransactionGoesOn(config, st, events[0], h, b);
      StepKeepsInv(config, st, events[0]);
      if r in st1.store.executions {
        if st1.store.executions[r].handle == h {
          StatementsCarryTheTransaction(config, st, events[0], h, r);
        }
        GoesOnKeeps(config, st1, events[1..], h, b);
        ExecutionsStay(config, st1, events[1..], r);
      } else {
        WritesCarryTheirBegin(config, st1, events[1..], h, b, r);
      }
    }
  }

  lemma {:induction false} GoesOnKeeps(config: Config, st: Server, events: seq<Event>, h: HandleId, b: RequestId)
    requires Inv(st) && Run(config, st, events).Some? && GoesOn(config, st, events, h)
    requires h in st.store.handles && st.store.handles[h].explicit == Some(b)
    ensures var s := Run(config, st, events).value.store; h in s.handles && s.handles[h].explicit == Some(b)
    decreases |events|
  {
    hide Inv, Step, Enabled, EndsTransaction;
    if events != [] {
      TransactionGoesOn(config, st, events[0], h, b);
      StepKeepsInv(config, st, events[0]);
      GoesOnKeeps(config, Step(config, st, events[0]), events[1..], h, b);
    }
  }

  /** A BEGIN that is done opens the transaction that its request names. */
  lemma BeginOpens(config: Config, st: Server, c: ConnId)
    requires Inv(st) && Enabled(st, Done(c)) && st.conns[c].progress.statement.Begin?
    ensures var p, s' := st.conns[c].progress, Step(config, st, Done(c)).store;
            && p.handle in s'.handles && s'.handles[p.handle].explicit == Some(p.request)
            && st.store.handles[p.handle].explicit.None? && OnlyOwnWork(st.store, s', p.handle)
  {
    hide StoreInv, CachesMatch, HandlesInUse, WorkInUse, AnswersMatch, RequestsMatch, LocksMatch, OnlyOwnWork, TableOf;
    var p := st.conns[c].progress;
    StoreLocks(st);
    DoneEnds(config, st, c);
    hide Inv, Step, Finished, Ends;
    BeginStarts(st.store, p.handle, p.request, p.statement.immediate);
  }

  lemma StoreLocks(st: Server)
    requires Inv(st)
    ensures LocksMatch(st.store)
  {
  }
}
