/** Every operation of the store keeps its invariant. */
module StoreProofs {
  import opened Wrappers
  import opened Store

  // ----- Generations -----

  /** NamesMatch speaks of the folder and of the files' names only. */
  lemma NamesFrame(s: Store, s': Store)
    requires NamesMatch(s)
    requires s'.folder == s.folder && s'.removals == s.removals && s'.nextFile == s.nextFile
    requires s'.files.Keys == s.files.Keys && forall g :: g in s.files ==> SameKey(s'.files[g], s.files[g])
    ensures NamesMatch(s')
  {
    assert forall g :: g in s'.files <==> g in s.files;
    forall g | g in s'.files
      ensures g < s'.nextFile && s'.files[g].removals <= Removals(s', s'.files[g].name)
    {
      assert SameKey(s'.files[g], s.files[g]);
    }
    forall g, g' | g in s'.files && g' in s'.files && SameKey(s'.files[g], s'.files[g']) ensures g == g' {
      assert SameKey(s.files[g], s.files[g']);
    }
    forall n | n in s'.folder
      ensures s'.folder[n] in s'.files && s'.files[s'.folder[n]].name == n && IsCurrent(s', s'.files[s'.folder[n]])
    {
      assert IsCurrent(s, s.files[s.folder[n]]);
    }
    forall g | g in s'.files && IsCurrent(s', s'.files[g])
      ensures s'.files[g].name in s'.folder && s'.folder[s'.files[g].name] == g
    {
      assert IsCurrent(s, s.files[g]);
    }
  }

  lemma CreatedNames(s: Store, name: string)
    requires NamesMatch(s) && name !in s.folder
    ensures NamesMatch(Created(s, name))
  {
    var s' := Created(s, name);
    var file := s'.files[s.nextFile];
    assert s'.removals == s.removals && s.nextFile !in s.files;
    forall g, g' | g in s'.files && g' in s'.files && SameKey(s'.files[g], s'.files[g']) ensures g == g' {
      if g != s.nextFile && g' != s.nextFile {
        assert SameKey(s.files[g], s.files[g']);
      } else if g != g' {
        var known := if g == s.nextFile then g' else g;
        assert IsCurrent(s, s.files[known]);
      }
    }
    forall n | n in s'.folder
      ensures s'.folder[n] in s'.files && s'.files[s'.folder[n]].name == n && IsCurrent(s', s'.files[s'.folder[n]])
    {
      if n != name {
        assert IsCurrent(s, s.files[s.folder[n]]);
      }
    }
    forall g | g in s'.files && IsCurrent(s', s'.files[g])
      ensures s'.files[g].name in s'.folder && s'.folder[s'.files[g].name] == g
    {
      if g != s.nextFile {
        assert IsCurrent(s, s.files[g]);
      }
    }
  }

  lemma RemovedNames(s: Store, name: string)
    requires NamesMatch(s) && name in s.folder
    ensures NamesMatch(Removed(s, name))
  {
    var s' := Removed(s, name);
    forall g | g in s'.files
      ensures g < s'.nextFile && s'.files[g].removals <= Removals(s', s'.files[g].name)
    {
      assert s.files[g].removals <= Removals(s, s.files[g].name);
    }
    forall g, g' | g in s'.files && g' in s'.files && SameKey(s'.files[g], s'.files[g']) ensures g == g' {
      assert SameKey(s.files[g], s.files[g']);
    }
    forall n | n in s'.folder
      ensures s'.folder[n] in s'.files && s'.files[s'.folder[n]].name == n && IsCurrent(s', s'.files[s'.folder[n]])
    {
      assert IsCurrent(s, s.files[s.folder[n]]);
    }
    forall g | g in s'.files && IsCurrent(s', s'.files[g])
      ensures s'.files[g].name in s'.folder && s'.folder[s'.files[g].name] == g
    {
      assert s.files[g].removals <= Removals(s, s.files[g].name);
      assert s.files[g].name != name;
      assert IsCurrent(s, s.files[g]);
    }
  }

  // ----- Contents -----

  ghost predicate SameData(f: File, f': File) {
    f.contents == f'.contents && f.history == f'.history && f.tickets == f'.tickets
  }

  /** Files keep their contents, and handles their work. */
  lemma ContentsFrame(s: Store, s': Store)
    requires ContentsMatch(s)
    requires forall g :: g in s'.files ==> g in s.files && SameData(s'.files[g], s.files[g])
    requires forall h :: ValidHandle(s', h) && s'.handles[h].work.Some? ==>
               ValidHandle(s, h) && s'.handles[h].file == s.handles[h].file && s'.handles[h].work == s.handles[h].work
    ensures ContentsMatch(s')
  {
    forall g | g in s'.files ensures s'.files[g].contents == ReplayAll(s'.files[g].history) && TicketsMatch(s', g) {
      assert SameData(s'.files[g], s.files[g]) && TicketsMatch(s, g);
    }
    forall h | ValidHandle(s', h) && s'.handles[h].work.Some?
      ensures && s'.handles[h].work.value.contents
                   == Replay(s'.files[s'.handles[h].file].contents, s'.handles[h].work.value.writes)
              && LatestTicket(s', s'.handles[h].file, s'.handles[h].work.value.ticket)
    {
      assert LatestTicket(s, s.handles[h].file, s.handles[h].work.value.ticket);
      assert SameData(s'.files[s'.handles[h].file], s.files[s.handles[h].file]);
    }
  }

  // ----- Writes -----

  ghost predicate KeepsWork(x: Handle, x': Handle) {
    (x'.work == x.work && x'.explicit == x.explicit) || (x'.work.None? && x'.explicit.None?)
  }

  /** Histories stay, and handles keep their transaction or have none. */
  lemma WritesFrame(s: Store, s': Store)
    requires WritesMatch(s) && s'.executions == s.executions && s'.commits == s.commits
    requires forall g :: g in s'.files ==> g in s.files && s'.files[g].history == s.files[g].history
    requires forall h :: h in s'.handles ==> h in s.handles && KeepsWork(s.handles[h], s'.handles[h])
    ensures WritesMatch(s')
  {
    forall g, r | g in s'.files
      ensures CommittedRequests(s'.files[g].history)[r] == if IsCommitted(s', r, g) then 1 else 0
    {
      assert IsCommitted(s', r, g) == IsCommitted(s, r, g);
    }
    forall h, r | h in s'.handles
      ensures PendingRequests(s'.handles[h])[r] == if IsPending(s', r, h) then 1 else 0
    {
      if s'.handles[h].work == s.handles[h].work && s'.handles[h].explicit == s.handles[h].explicit {
        assert IsPending(s', r, h) == IsPending(s, r, h);
        assert PendingRequests(s'.handles[h]) == PendingRequests(s.handles[h]);
      } else {
        assert !IsPending(s', r, h);
      }
    }
  }

  // ----- One lemma for each operation and each part of the invariant -----

  lemma CreatedLocks(s: Store, name: string)
    requires LocksMatch(s)
    requires name !in s.folder && s.nextFile !in s.files
    ensures LocksMatch(Created(s, name))
  {
  }

  lemma CreatedContents(s: Store, name: string)
    requires LocksMatch(s) && ContentsMatch(s)
    requires name !in s.folder && s.nextFile !in s.files
    ensures ContentsMatch(Created(s, name))
  {
    var s' := Created(s, name);
    forall g | g in s'.files ensures s'.files[g].contents == ReplayAll(s'.files[g].history) && TicketsMatch(s', g) {
      assert g != s.nextFile ==> TicketsMatch(s, g);
    }
    forall h | ValidHandle(s', h) && s'.handles[h].work.Some?
      ensures && s'.handles[h].work.value.contents
                   == Replay(s'.files[s'.handles[h].file].contents, s'.handles[h].work.value.writes)
              && LatestTicket(s', s'.handles[h].file, s'.handles[h].work.value.ticket)
    {
      assert ValidHandle(s, h) && LatestTicket(s, s.handles[h].file, s.handles[h].work.value.ticket);
    }
  }

  lemma CreatedTransactions(s: Store, name: string)
    requires TransactionsMatch(s)
    requires name !in s.folder && s.nextFile !in s.files
    ensures TransactionsMatch(Created(s, name))
  {
  }

  lemma CreatedWrites(s: Store, name: string)
    requires LocksMatch(s) && TransactionsMatch(s) && WritesMatch(s)
    requires name !in s.folder && s.nextFile !in s.files
    ensures WritesMatch(Created(s, name))
  {
    assert CommittedRequests([]) == multiset{};
  }

  lemma CreatedRecords(s: Store, name: string)
    requires RecordsMatch(s)
    requires name !in s.folder && s.nextFile !in s.files
    ensures RecordsMatch(Created(s, name))
  {
  }

  lemma CreatedHandles(s: Store, name: string)
    requires LocksMatch(s) && NamesMatch(s) && HandlesMatch(s)
    requires name !in s.folder && s.nextFile !in s.files
    ensures HandlesMatch(Created(s, name))
  {
  }

  lemma AttachedLocks(s: Store, owner: ConnId, db: string, name: string)
    requires LocksMatch(s)
    requires name in s.folder && NamesMatch(s) && HandlesMatch(s)
    ensures LocksMatch(Attached(s, owner, db, name))
  {
  }

  lemma AttachedContents(s: Store, owner: ConnId, db: string, name: string)
    requires LocksMatch(s) && ContentsMatch(s)
    requires name in s.folder && NamesMatch(s) && HandlesMatch(s)
    ensures ContentsMatch(Attached(s, owner, db, name))
  {
    ContentsFrame(s, Attached(s, owner, db, name));
    hide ContentsMatch;
  }

  lemma AttachedTransactions(s: Store, owner: ConnId, db: string, name: string)
    requires TransactionsMatch(s)
    requires name in s.folder && NamesMatch(s) && HandlesMatch(s)
    ensures TransactionsMatch(Attached(s, owner, db, name))
  {
  }

  lemma AttachedWrites(s: Store, owner: ConnId, db: string, name: string)
    requires LocksMatch(s) && TransactionsMatch(s) && WritesMatch(s)
    requires name in s.folder && NamesMatch(s) && HandlesMatch(s)
    ensures WritesMatch(Attached(s, owner, db, name))
  {
  }

  lemma AttachedRecords(s: Store, owner: ConnId, db: string, name: string)
    requires RecordsMatch(s)
    requires name in s.folder && NamesMatch(s) && HandlesMatch(s)
    ensures RecordsMatch(Attached(s, owner, db, name))
  {
  }

  lemma AttachedNames(s: Store, owner: ConnId, db: string, name: string)
    requires NamesMatch(s) && name in s.folder
    ensures NamesMatch(Attached(s, owner, db, name))
  {
    NamesFrame(s, Attached(s, owner, db, name));
  }

  lemma AttachedHandles(s: Store, owner: ConnId, db: string, name: string)
    requires LocksMatch(s) && NamesMatch(s) && HandlesMatch(s) && name in s.folder
    ensures HandlesMatch(Attached(s, owner, db, name))
  {
    assert IsCurrent(s, s.files[s.folder[name]]);
  }

  lemma RemovedLocks(s: Store, name: string)
    requires LocksMatch(s)
    requires name in s.folder
    ensures LocksMatch(Removed(s, name))
  {
  }

  lemma RemovedContents(s: Store, name: string)
    requires LocksMatch(s) && ContentsMatch(s)
    requires name in s.folder
    ensures ContentsMatch(Removed(s, name))
  {
  }

  lemma RemovedTransactions(s: Store, name: string)
    requires TransactionsMatch(s)
    requires name in s.folder
    ensures TransactionsMatch(Removed(s, name))
  {
  }

  lemma RemovedWrites(s: Store, name: string)
    requires LocksMatch(s) && TransactionsMatch(s) && WritesMatch(s)
    requires name in s.folder
    ensures WritesMatch(Removed(s, name))
  {
  }

  lemma RemovedRecords(s: Store, name: string)
    requires RecordsMatch(s)
    requires name in s.folder
    ensures RecordsMatch(Removed(s, name))
  {
  }

  lemma RemovedHandles(s: Store, name: string)
    requires LocksMatch(s) && NamesMatch(s) && HandlesMatch(s)
    requires name in s.folder
    ensures HandlesMatch(Removed(s, name))
  {
  }

  lemma ClosedLocks(s: Store, hs: set<HandleId>)
    requires LocksMatch(s)
    ensures LocksMatch(Closed(s, hs))
  {
  }

  lemma ClosedContents(s: Store, hs: set<HandleId>)
    requires LocksMatch(s) && ContentsMatch(s)
    ensures ContentsMatch(Closed(s, hs))
  {
    ContentsFrame(s, Closed(s, hs));
    hide ContentsMatch;
  }

  lemma ClosedTransactions(s: Store, hs: set<HandleId>)
    requires TransactionsMatch(s)
    ensures TransactionsMatch(Closed(s, hs))
  {
  }

  lemma ClosedWrites(s: Store, hs: set<HandleId>)
    requires LocksMatch(s) && TransactionsMatch(s) && WritesMatch(s)
    ensures WritesMatch(Closed(s, hs))
  {
    WritesFrame(s, Closed(s, hs));
    hide WritesMatch;
  }

  lemma ClosedRecords(s: Store, hs: set<HandleId>)
    requires RecordsMatch(s)
    ensures RecordsMatch(Closed(s, hs))
  {
  }

  lemma ClosedNames(s: Store, hs: set<HandleId>)
    requires NamesMatch(s)
    ensures NamesMatch(Closed(s, hs))
  {
    NamesFrame(s, Closed(s, hs));
  }

  lemma ClosedHandles(s: Store, hs: set<HandleId>)
    requires LocksMatch(s) && NamesMatch(s) && HandlesMatch(s)
    ensures HandlesMatch(Closed(s, hs))
  {
  }

  lemma LockedLocks(s: Store, h: HandleId, statement: Statement)
    requires LocksMatch(s)
    requires CanLock(s, h, statement)
    ensures LocksMatch(Locked(s, h))
  {
  }

  lemma LockedContents(s: Store, h: HandleId, statement: Statement)
    requires LocksMatch(s) && ContentsMatch(s)
    requires CanLock(s, h, statement)
    ensures ContentsMatch(Locked(s, h))
  {
    var s' := Locked(s, h);
    var locked := s.handles[h].file;
    forall g | g in s'.files ensures s'.files[g].contents == ReplayAll(s'.files[g].history) && TicketsMatch(s', g) {
      assert TicketsMatch(s, g);
    }
    forall k | ValidHandle(s', k) && s'.handles[k].work.Some?
      ensures && s'.handles[k].work.value.contents
                   == Replay(s'.files[s'.handles[k].file].contents, s'.handles[k].work.value.writes)
              && LatestTicket(s', s'.handles[k].file, s'.handles[k].work.value.ticket)
    {
      if k == h {
        assert TicketsMatch(s, locked);
      } else {
        assert s.handles[k].file != locked;
        assert LatestTicket(s, s.handles[k].file, s.handles[k].work.value.ticket);
      }
    }
  }

  lemma LockedTransactions(s: Store, h: HandleId, statement: Statement)
    requires TransactionsMatch(s)
    requires CanLock(s, h, statement)
    ensures TransactionsMatch(Locked(s, h))
  {
  }

  lemma LockedWrites(s: Store, h: HandleId, statement: Statement)
    requires LocksMatch(s) && TransactionsMatch(s) && WritesMatch(s)
    requires CanLock(s, h, statement)
    ensures WritesMatch(Locked(s, h))
  {
    var s' := Locked(s, h);
    assert PendingRequests(s.handles[h]) == PendingRequests(s'.handles[h]) == multiset{};
    forall g, r | g in s'.files
      ensures CommittedRequests(s'.files[g].history)[r] == if IsCommitted(s', r, g) then 1 else 0
    {
      assert IsCommitted(s', r, g) == IsCommitted(s, r, g);
    }
    forall k, r | k in s'.handles
      ensures PendingRequests(s'.handles[k])[r] == if IsPending(s', r, k) then 1 else 0
    {
      assert IsPending(s', r, k) == IsPending(s, r, k);
    }
  }

  lemma LockedRecords(s: Store, h: HandleId, statement: Statement)
    requires RecordsMatch(s)
    requires CanLock(s, h, statement)
    ensures RecordsMatch(Locked(s, h))
  {
  }

  lemma LockedNames(s: Store, h: HandleId, statement: Statement)
    requires NamesMatch(s)
    requires CanLock(s, h, statement)
    ensures NamesMatch(Locked(s, h))
  {
    NamesFrame(s, Locked(s, h));
  }

  lemma LockedHandles(s: Store, h: HandleId, statement: Statement)
    requires LocksMatch(s) && NamesMatch(s) && HandlesMatch(s)
    requires CanLock(s, h, statement)
    ensures HandlesMatch(Locked(s, h))
  {
  }

  lemma DiscardedLocks(s: Store, h: HandleId)
    requires LocksMatch(s)
    requires ValidHandle(s, h)
    ensures LocksMatch(Discarded(s, h))
  {
  }

  lemma DiscardedContents(s: Store, h: HandleId)
    requires LocksMatch(s) && ContentsMatch(s)
    requires ValidHandle(s, h)
    ensures ContentsMatch(Discarded(s, h))
  {
  }

  lemma DiscardedTransactions(s: Store, h: HandleId)
    requires TransactionsMatch(s)
    requires ValidHandle(s, h)
    ensures TransactionsMatch(Discarded(s, h))
  {
  }

  lemma DiscardedWrites(s: Store, h: HandleId)
    requires LocksMatch(s) && TransactionsMatch(s) && WritesMatch(s)
    requires ValidHandle(s, h)
    ensures WritesMatch(Discarded(s, h))
  {
    WritesFrame(s, Discarded(s, h));
    hide WritesMatch;
  }

  lemma DiscardedRecords(s: Store, h: HandleId)
    requires RecordsMatch(s)
    requires ValidHandle(s, h)
    ensures RecordsMatch(Discarded(s, h))
  {
  }

  lemma DiscardedNames(s: Store, h: HandleId)
    requires NamesMatch(s)
    requires ValidHandle(s, h)
    ensures NamesMatch(Discarded(s, h))
  {
    NamesFrame(s, Discarded(s, h));
  }

  lemma DiscardedHandles(s: Store, h: HandleId)
    requires LocksMatch(s) && NamesMatch(s) && HandlesMatch(s)
    requires ValidHandle(s, h)
    ensures HandlesMatch(Discarded(s, h))
  {
  }

  lemma NotedLocks(s: Store, h: HandleId, r: RequestId, statement: Statement, done: bool)
    requires LocksMatch(s)
    requires ValidHandle(s, h) && r !in s.executions
    ensures LocksMatch(Noted(s, h, r, statement, done))
  {
  }

  lemma NotedContents(s: Store, h: HandleId, r: RequestId, statement: Statement, done: bool)
    requires LocksMatch(s) && ContentsMatch(s)
    requires ValidHandle(s, h) && r !in s.executions
    ensures ContentsMatch(Noted(s, h, r, statement, done))
  {
  }

  lemma NotedRecords(s: Store, h: HandleId, r: RequestId, statement: Statement, done: bool)
    requires RecordsMatch(s)
    requires ValidHandle(s, h) && r !in s.executions
    ensures RecordsMatch(Noted(s, h, r, statement, done))
  {
  }

  lemma NotedNames(s: Store, h: HandleId, r: RequestId, statement: Statement, done: bool)
    requires NamesMatch(s)
    requires ValidHandle(s, h) && r !in s.executions
    ensures NamesMatch(Noted(s, h, r, statement, done))
  {
    NamesFrame(s, Noted(s, h, r, statement, done));
  }

  lemma NotedHandles(s: Store, h: HandleId, r: RequestId, statement: Statement, done: bool)
    requires LocksMatch(s) && NamesMatch(s) && HandlesMatch(s)
    requires ValidHandle(s, h) && r !in s.executions
    ensures HandlesMatch(Noted(s, h, r, statement, done))
  {
  }

  lemma NotedTransactions(s: Store, h: HandleId, r: RequestId, statement: Statement, done: bool)
    requires TransactionsMatch(s)
    requires ValidHandle(s, h) && r !in s.executions && (done ==> !statement.Commit?)
    ensures TransactionsMatch(Noted(s, h, r, statement, done))
  {
  }

  lemma NotedWrites(s: Store, h: HandleId, r: RequestId, statement: Statement, done: bool)
    requires LocksMatch(s) && TransactionsMatch(s) && WritesMatch(s)
    requires ValidHandle(s, h) && r !in s.executions && (done ==> !statement.Write?)
    ensures WritesMatch(Noted(s, h, r, statement, done))
  {
  }

  lemma WrittenLocks(s: Store, h: HandleId, r: RequestId, effect: Effect)
    requires LocksMatch(s)
    requires ValidHandle(s, h) && s.handles[h].work.Some? && IsRecordOf(s, WriteRecord(r, effect))
    ensures LocksMatch(Written(s, h, r, effect))
  {
  }

  lemma WrittenContents(s: Store, h: HandleId, r: RequestId, effect: Effect)
    requires LocksMatch(s) && ContentsMatch(s)
    requires ValidHandle(s, h) && s.handles[h].work.Some? && IsRecordOf(s, WriteRecord(r, effect))
    ensures ContentsMatch(Written(s, h, r, effect))
  {
    var s' := Written(s, h, r, effect);
    forall g | g in s'.files ensures s'.files[g].contents == ReplayAll(s'.files[g].history) && TicketsMatch(s', g) {
      assert TicketsMatch(s, g);
    }
    forall k | ValidHandle(s', k) && s'.handles[k].work.Some?
      ensures && s'.handles[k].work.value.contents
                   == Replay(s'.files[s'.handles[k].file].contents, s'.handles[k].work.value.writes)
              && LatestTicket(s', s'.handles[k].file, s'.handles[k].work.value.ticket)
    {
      assert ValidHandle(s, k) && LatestTicket(s, s.handles[k].file, s.handles[k].work.value.ticket);
      if k == h {
        SnocWrites(s.files[s.handles[h].file].contents, s.handles[h].work.value.writes, WriteRecord(r, effect));
      }
    }
  }

  lemma WrittenTransactions(s: Store, h: HandleId, r: RequestId, effect: Effect)
    requires TransactionsMatch(s)
    requires ValidHandle(s, h) && s.handles[h].work.Some? && IsRecordOf(s, WriteRecord(r, effect))
    ensures TransactionsMatch(Written(s, h, r, effect))
  {
  }

  lemma WrittenRecords(s: Store, h: HandleId, r: RequestId, effect: Effect)
    requires RecordsMatch(s)
    requires ValidHandle(s, h) && s.handles[h].work.Some? && IsRecordOf(s, WriteRecord(r, effect))
    ensures RecordsMatch(Written(s, h, r, effect))
  {
  }

  lemma WrittenNames(s: Store, h: HandleId, r: RequestId, effect: Effect)
    requires NamesMatch(s)
    requires ValidHandle(s, h) && s.handles[h].work.Some? && IsRecordOf(s, WriteRecord(r, effect))
    ensures NamesMatch(Written(s, h, r, effect))
  {
    NamesFrame(s, Written(s, h, r, effect));
  }

  lemma WrittenHandles(s: Store, h: HandleId, r: RequestId, effect: Effect)
    requires LocksMatch(s) && NamesMatch(s) && HandlesMatch(s)
    requires ValidHandle(s, h) && s.handles[h].work.Some? && IsRecordOf(s, WriteRecord(r, effect))
    ensures HandlesMatch(Written(s, h, r, effect))
  {
  }

  lemma CommittedLocks(s: Store, h: HandleId, finisher: RequestId)
    requires LocksMatch(s)
    requires CanCommit(s, h, finisher)
    ensures LocksMatch(Committed(s, h, finisher))
  {
  }

  lemma CommittedContents(s: Store, h: HandleId, finisher: RequestId)
    requires LocksMatch(s) && ContentsMatch(s)
    requires CanCommit(s, h, finisher)
    ensures ContentsMatch(Committed(s, h, finisher))
  {
    var s' := Committed(s, h, finisher);
    CommittedFile(s, h, finisher);
    WritersAreAlone(s, h);
    hide LocksMatch, TicketsMatch, LatestTicket;
    forall k | ValidHandle(s', k) && s'.handles[k].work.Some?
      ensures s'.handles[k].work.value.contents
                == Replay(s'.files[s'.handles[k].file].contents, s'.handles[k].work.value.writes)
      ensures LatestTicket(s', s'.handles[k].file, s'.handles[k].work.value.ticket)
    {
      UnchangedFile(s, s', s.handles[k].file, s.handles[k].work.value.ticket);
    }
    forall g | g in s'.files ensures s'.files[g].contents == ReplayAll(s'.files[g].history) && TicketsMatch(s', g) {
      if g != s.handles[h].file {
        UnchangedFile(s, s', g, 0);
      }
    }
  }

  lemma CommittedTransactions(s: Store, h: HandleId, finisher: RequestId)
    requires TransactionsMatch(s)
    requires CanCommit(s, h, finisher)
    ensures TransactionsMatch(Committed(s, h, finisher))
  {
  }

  lemma CommittedRecords(s: Store, h: HandleId, finisher: RequestId)
    requires RecordsMatch(s)
    requires CanCommit(s, h, finisher)
    ensures RecordsMatch(Committed(s, h, finisher))
  {
  }

  lemma CommittedNames(s: Store, h: HandleId, finisher: RequestId)
    requires NamesMatch(s)
    requires CanCommit(s, h, finisher)
    ensures NamesMatch(Committed(s, h, finisher))
  {
    NamesFrame(s, Committed(s, h, finisher));
  }

  lemma CommittedHandles(s: Store, h: HandleId, finisher: RequestId)
    requires LocksMatch(s) && NamesMatch(s) && HandlesMatch(s)
    requires CanCommit(s, h, finisher)
    ensures HandlesMatch(Committed(s, h, finisher))
  {
  }

  lemma MarkedLocks(s: Store, b: RequestId, r: RequestId)
    requires LocksMatch(s)
    ensures LocksMatch(Marked(s, b, r))
  {
  }

  lemma MarkedContents(s: Store, b: RequestId, r: RequestId)
    requires LocksMatch(s) && ContentsMatch(s)
    ensures ContentsMatch(Marked(s, b, r))
  {
  }

  lemma MarkedRecords(s: Store, b: RequestId, r: RequestId)
    requires RecordsMatch(s)
    ensures RecordsMatch(Marked(s, b, r))
  {
  }

  lemma MarkedNames(s: Store, b: RequestId, r: RequestId)
    requires NamesMatch(s)
    ensures NamesMatch(Marked(s, b, r))
  {
    NamesFrame(s, Marked(s, b, r));
  }

  lemma MarkedHandles(s: Store, b: RequestId, r: RequestId)
    requires LocksMatch(s) && NamesMatch(s) && HandlesMatch(s)
    ensures HandlesMatch(Marked(s, b, r))
  {
  }

  lemma BegunLocks(s: Store, h: HandleId, r: RequestId)
    requires LocksMatch(s)
    requires CanBegin(s, h, r)
    ensures LocksMatch(Begun(s, h, r))
  {
  }

  lemma BegunContents(s: Store, h: HandleId, r: RequestId)
    requires LocksMatch(s) && ContentsMatch(s)
    requires CanBegin(s, h, r)
    ensures ContentsMatch(Begun(s, h, r))
  {
    ContentsFrame(s, Begun(s, h, r));
    hide ContentsMatch;
  }

  lemma BegunTransactions(s: Store, h: HandleId, r: RequestId)
    requires TransactionsMatch(s)
    requires CanBegin(s, h, r)
    ensures TransactionsMatch(Begun(s, h, r))
  {
  }

  lemma BegunWrites(s: Store, h: HandleId, r: RequestId)
    requires LocksMatch(s) && TransactionsMatch(s) && WritesMatch(s)
    requires CanBegin(s, h, r)
    ensures WritesMatch(Begun(s, h, r))
  {
    assert forall q :: PendingRequests(s.handles[h])[q] == 0;
  }

  lemma BegunRecords(s: Store, h: HandleId, r: RequestId)
    requires RecordsMatch(s)
    requires CanBegin(s, h, r)
    ensures RecordsMatch(Begun(s, h, r))
  {
  }

  lemma BegunNames(s: Store, h: HandleId, r: RequestId)
    requires NamesMatch(s)
    requires CanBegin(s, h, r)
    ensures NamesMatch(Begun(s, h, r))
  {
    NamesFrame(s, Begun(s, h, r));
  }

  lemma BegunHandles(s: Store, h: HandleId, r: RequestId)
    requires LocksMatch(s) && NamesMatch(s) && HandlesMatch(s)
    requires CanBegin(s, h, r)
    ensures HandlesMatch(Begun(s, h, r))
  {
  }

  // ----- Statements that reach DONE -----

  /** BEGIN on a handle: no execution belongs to the new transaction yet. */
  ghost predicate CanBegin(s: Store, h: HandleId, r: RequestId) {
    && ValidHandle(s, h) && s.handles[h].explicit.None? && r !in s.commits
    && r in s.executions && s.executions[r].handle == h && s.executions[r].file == s.handles[h].file
    && forall q :: q in s.executions ==> s.executions[q].transaction != Some(r)
  }

  ghost predicate CanCommit(s: Store, h: HandleId, r: RequestId) {
    && ValidHandle(s, h) && s.handles[h].work.Some?
    && IsFinisher(s, s.handles[h].file, r)
  }

  /** Two handles never hold uncommitted work for one file. */
  lemma WritersAreAlone(s: Store, h: HandleId)
    requires LocksMatch(s) && ValidHandle(s, h) && s.handles[h].work.Some?
    ensures forall k :: k in s.handles && s.handles[k].work.Some? && k != h ==> s.handles[k].file != s.handles[h].file
  {
  }

  lemma UnchangedFile(s: Store, s': Store, g: Generation, ticket: nat)
    requires g in s.files && g in s'.files && s'.files[g] == s.files[g]
    ensures TicketsMatch(s', g) == TicketsMatch(s, g) && LatestTicket(s', g, ticket) == LatestTicket(s, g, ticket)
  {
  }

  lemma CommittedFile(s: Store, h: HandleId, finisher: RequestId)
    requires ContentsMatch(s) && ValidHandle(s, h) && s.handles[h].work.Some?
    ensures var g, s' := s.handles[h].file, Committed(s, h, finisher);
            g in s'.files && s'.files[g].contents == ReplayAll(s'.files[g].history) && TicketsMatch(s', g)
  {
    var w, g := s.handles[h].work.value, s.handles[h].file;
    SnocHistory(s.files[g].history, Transaction(w.ticket, w.writes, finisher));
    assert TicketsMatch(s, g) && LatestTicket(s, g, w.ticket);
  }

  /** A write inside a transaction becomes pending, once. */
  lemma TransactionWrite(s: Store, h: HandleId, r: RequestId, effect: Effect)
    requires TransactionsMatch(s) && WritesMatch(s) && ValidHandle(s, h) && r !in s.executions
    requires s.handles[h].work.Some? && s.handles[h].explicit.Some?
    ensures WritesMatch(Written(Noted(s, h, r, Write(effect), true), h, r, effect))
  {
    var s' := Written(Noted(s, h, r, Write(effect), true), h, r, effect);
    SnocWrites(multiset{}, s.handles[h].work.value.writes, WriteRecord(r, effect));
    assert PendingRequests(s'.handles[h]) == PendingRequests(s.handles[h]) + multiset{r};
    forall g, q | g in s'.files
      ensures CommittedRequests(s'.files[g].history)[q] == if IsCommitted(s', q, g) then 1 else 0
    {
      assert q != r ==> IsCommitted(s', q, g) == IsCommitted(s, q, g);
      assert !IsCommitted(s, r, g);
    }
    forall k, q | k in s'.handles
      ensures PendingRequests(s'.handles[k])[q] == if IsPending(s', q, k) then 1 else 0
    {
      assert q != r ==> IsPending(s', q, k) == IsPending(s, q, k);
      assert !IsPending(s, r, k);
      assert IsPending(s', r, h);
    }
  }

  /** A write outside a transaction is committed at once, and is alone in its transaction. */
  lemma NothingPending(s: Store, h: HandleId)
    requires WritesMatch(s) && h in s.handles && s.handles[h].explicit.None?
    ensures PendingRequests(s.handles[h]) == multiset{}
  {
    assert forall q :: !IsPending(s, q, h);
  }

  lemma AutocommitHistories(s: Store, h: HandleId, r: RequestId, effect: Effect, g: Generation, q: RequestId)
    requires WritesMatch(s) && ValidHandle(s, h) && r !in s.executions && g in s.files
    requires s.handles[h].work.Some? && s.handles[h].explicit.None?
    ensures var s' := Committed(Written(Noted(s, h, r, Write(effect), true), h, r, effect), h, r);
            CommittedRequests(s'.files[g].history)[q] == if IsCommitted(s', q, g) then 1 else 0
  {
    var s1 := Written(Noted(s, h, r, Write(effect), true), h, r, effect);
    var s' := Committed(s1, h, r);
    var file, w := s.handles[h].file, s1.handles[h].work.value;
    NothingPending(s, h);
    SnocWrites(multiset{}, s.handles[h].work.value.writes, WriteRecord(r, effect));
    SnocHistory(s.files[file].history, Transaction(w.ticket, w.writes, r));
    assert CommittedRequests(s'.files[file].history) == CommittedRequests(s.files[file].history) + multiset{r};
    assert q != r ==> IsCommitted(s', q, g) == IsCommitted(s, q, g);
    assert !IsCommitted(s, r, g);
    assert IsCommitted(s', r, file);
  }

  lemma AutocommitPending(s: Store, h: HandleId, r: RequestId, effect: Effect, k: HandleId, q: RequestId)
    requires WritesMatch(s) && ValidHandle(s, h) && r !in s.executions && k in s.handles
    requires s.handles[h].work.Some? && s.handles[h].explicit.None?
    ensures var s' := Committed(Written(Noted(s, h, r, Write(effect), true), h, r, effect), h, r);
            PendingRequests(s'.handles[k])[q] == if IsPending(s', q, k) then 1 else 0
  {
    var s' := Committed(Written(Noted(s, h, r, Write(effect), true), h, r, effect), h, r);
    assert k != h && q != r ==> IsPending(s', q, k) == IsPending(s, q, k);
    assert !IsPending(s, r, k);
  }

  lemma AutocommitWrite(s: Store, h: HandleId, r: RequestId, effect: Effect)
    requires WritesMatch(s) && ValidHandle(s, h) && r !in s.executions
    requires s.handles[h].work.Some? && s.handles[h].explicit.None?
    ensures WritesMatch(Committed(Written(Noted(s, h, r, Write(effect), true), h, r, effect), h, r))
  {
    hide IsCommitted, IsPending, CommittedRequests, PendingRequests;
    var s' := Committed(Written(Noted(s, h, r, Write(effect), true), h, r, effect), h, r);
    forall g, q | g in s'.files
      ensures CommittedRequests(s'.files[g].history)[q] == if IsCommitted(s', q, g) then 1 else 0
    {
      AutocommitHistories(s, h, r, effect, g, q);
    }
    forall k, q | k in s'.handles
      ensures PendingRequests(s'.handles[k])[q] == if IsPending(s', q, k) then 1 else 0
    {
      AutocommitPending(s, h, r, effect, k, q);
    }
  }

  lemma CompletedShape(s: Store, h: HandleId, r: RequestId)
    requires LocksMatch(s) && ValidHandle(s, h) && s.handles[h].explicit.Some?
    ensures var s' := Completed(Noted(s, h, r, Commit, true), h, r);
            && s'.executions == s.executions[r := Execution(h, s.handles[h].file, Commit, s.handles[h].explicit, true)]
            && s'.commits == s.commits[s.handles[h].explicit.value := r]
            && s'.files.Keys == s.files.Keys
            && s'.handles == s.handles[h := s.handles[h].(work := None, explicit := None)]
  {
    hide LocksMatch;
    if s.handles[h].work.Some? {
      assert Completed(Noted(s, h, r, Commit, true), h, r).files.Keys == s.files.Keys;
    } else {
      assert Completed(Noted(s, h, r, Commit, true), h, r).files.Keys == s.files.Keys;
    }
  }

  lemma CompletedHistory(s: Store, h: HandleId, r: RequestId, g: Generation)
    requires LocksMatch(s) && ValidHandle(s, h) && s.handles[h].explicit.Some? && g in s.files
    ensures var s' := Completed(Noted(s, h, r, Commit, true), h, r);
            && g in s'.files
            && CommittedRequests(s'.files[g].history) == CommittedRequests(s.files[g].history)
                 + if g == s.handles[h].file then PendingRequests(s.handles[h]) else multiset{}
  {
    if s.handles[h].work.Some? {
      var w := s.handles[h].work.value;
      SnocHistory(s.files[s.handles[h].file].history, Transaction(w.ticket, w.writes, r));
    }
  }

  lemma CompletedCommits(s: Store, s': Store, h: HandleId, r: RequestId, g: Generation, q: RequestId)
    requires TransactionsMatch(s) && h in s.handles && s.handles[h].explicit.Some? && r !in s.executions
    requires s'.executions == s.executions[r := Execution(h, s.handles[h].file, Commit, s.handles[h].explicit, true)]
    requires s'.commits == s.commits[s.handles[h].explicit.value := r]
    ensures IsCommitted(s', q, g) <==> IsCommitted(s, q, g) || (g == s.handles[h].file && IsPending(s, q, h))
    ensures !(IsCommitted(s, q, g) && IsPending(s, q, h))
  {
  }

  /** COMMIT: what was pending on the handle is committed, and nothing else changes. */
  lemma CompletedWrites(s: Store, h: HandleId, r: RequestId)
    requires LocksMatch(s) && TransactionsMatch(s) && WritesMatch(s)
    requires ValidHandle(s, h) && r !in s.executions && s.handles[h].explicit.Some?
    ensures WritesMatch(Completed(Noted(s, h, r, Commit, true), h, r))
  {
    var s' := Completed(Noted(s, h, r, Commit, true), h, r);
    CompletedShape(s, h, r);
    forall g, q | g in s'.files
      ensures CommittedRequests(s'.files[g].history)[q] == if IsCommitted(s', q, g) then 1 else 0
    {
      CompletedHistory(s, h, r, g);
      hide Completed, Noted, LocksMatch, TransactionsMatch, IsCommitted, IsPending;
      CompletedCommits(s, s', h, r, g, q);
    }
    hide Completed, Noted, LocksMatch;
    CompletedPending(s, s', h, r);
  }

  lemma CompletedPending(s: Store, s': Store, h: HandleId, r: RequestId)
    requires WritesMatch(s) && h in s.handles && r !in s.executions
    requires s'.executions == s.executions[r := Execution(h, s.handles[h].file, Commit, s.handles[h].explicit, true)]
    requires s'.handles == s.handles[h := s.handles[h].(work := None, explicit := None)]
    ensures forall k, q :: k in s'.handles ==>
              PendingRequests(s'.handles[k])[q] == if IsPending(s', q, k) then 1 else 0
  {
    forall k, q | k in s'.handles
      ensures PendingRequests(s'.handles[k])[q] == if IsPending(s', q, k) then 1 else 0
    {
      assert k != h ==> IsPending(s', q, k) == IsPending(s, q, k);
    }
  }

  lemma CompletedTransactions(s: Store, h: HandleId, r: RequestId)
    requires LocksMatch(s) && TransactionsMatch(s)
    requires ValidHandle(s, h) && r !in s.executions && s.handles[h].explicit.Some?
    ensures TransactionsMatch(Completed(Noted(s, h, r, Commit, true), h, r))
  {
    CompletedShape(s, h, r);
    TransactionEnds(s, Completed(Noted(s, h, r, Commit, true), h, r), h, r);
  }

  /** A COMMIT with number r has ended the transaction of h. */
  ghost predicate EndsTransaction(s: Store, s': Store, h: HandleId, r: RequestId) {
    && TransactionsMatch(s) && ValidHandle(s, h) && s.handles[h].explicit.Some? && r !in s.executions
    && s'.files.Keys == s.files.Keys
    && s'.executions == s.executions[r := Execution(h, s.handles[h].file, Commit, s.handles[h].explicit, true)]
    && s'.commits == s.commits[s.handles[h].explicit.value := r]
    && s'.handles == s.handles[h := s.handles[h].(work := None, explicit := None)]
  }

  lemma EndedHandle(s: Store, s': Store, h: HandleId, r: RequestId, k: HandleId)
    requires EndsTransaction(s, s', h, r) && k in s'.handles && s'.handles[k].explicit.Some?
    ensures var b := s'.handles[k].explicit.value;
            b in s'.executions && s'.executions[b].handle == k && s'.executions[b].file == s'.handles[k].file
            && b !in s'.commits
  {
    assert k != h && s'.handles[k] == s.handles[k];
    assert s.executions[s.handles[h].explicit.value].handle == h;
  }

  lemma EndedLink(s: Store, s': Store, h: HandleId, r: RequestId, q: RequestId)
    requires EndsTransaction(s, s', h, r) && q in s'.executions && s'.executions[q].transaction.Some?
    ensures var b := s'.executions[q].transaction.value;
            b in s'.executions && s'.executions[b].handle == s'.executions[q].handle
            && s'.executions[b].file == s'.executions[q].file
  {
    assert q != r ==> s'.executions[q] == s.executions[q];
  }

  lemma EndedCommit(s: Store, s': Store, h: HandleId, r: RequestId, b: RequestId)
    requires EndsTransaction(s, s', h, r) && b in s'.commits
    ensures b in s'.executions && s'.commits[b] in s'.executions
    ensures s'.executions[s'.commits[b]].done && s'.executions[s'.commits[b]].statement.Commit?
    ensures s'.executions[s'.commits[b]].transaction == Some(b)
  {
  }

  lemma EndedFinish(s: Store, s': Store, h: HandleId, r: RequestId, q: RequestId)
    requires EndsTransaction(s, s', h, r)
    requires q in s'.executions && s'.executions[q].done && s'.executions[q].statement.Commit?
    ensures s'.executions[q].transaction.Some? && s'.executions[q].transaction.value in s'.commits
  {
  }

  lemma TransactionEnds(s: Store, s': Store, h: HandleId, r: RequestId)
    requires EndsTransaction(s, s', h, r)
    ensures TransactionsMatch(s')
  {
    forall q | q in s'.executions ensures s'.executions[q].file in s'.files {
      assert forall g :: g in s'.files <==> g in s.files;
    }
    hide EndsTransaction;
    forall k | k in s'.handles && s'.handles[k].explicit.Some?
      ensures var b := s'.handles[k].explicit.value;
              b in s'.executions && s'.executions[b].handle == k && s'.executions[b].file == s'.handles[k].file
              && b !in s'.commits
    {
      EndedHandle(s, s', h, r, k);
    }
    forall q | q in s'.executions && s'.executions[q].transaction.Some?
      ensures var b := s'.executions[q].transaction.value;
              b in s'.executions && s'.executions[b].handle == s'.executions[q].handle
              && s'.executions[b].file == s'.executions[q].file
    {
      EndedLink(s, s', h, r, q);
    }
    forall b | b in s'.commits
      ensures b in s'.executions && s'.commits[b] in s'.executions
              && s'.executions[s'.commits[b]].done && s'.executions[s'.commits[b]].statement.Commit?
              && s'.executions[s'.commits[b]].transaction == Some(b)
    {
      EndedCommit(s, s', h, r, b);
    }
    forall q | q in s'.executions && s'.executions[q].done && s'.executions[q].statement.Commit?
      ensures s'.executions[q].transaction.Some? && s'.executions[q].transaction.value in s'.commits
    {
      EndedFinish(s, s', h, r, q);
    }
  }

  // ----- The operations as a whole -----

  lemma OpenedKeepsInv(s: Store, owner: ConnId, db: string, name: string)
    requires StoreInv(s)
    ensures StoreInv(Opened(s, owner, db, name))
  {
    assert s.nextFile !in s.files;
    hide LocksMatch, ContentsMatch, TransactionsMatch, WritesMatch, RecordsMatch, NamesMatch, HandlesMatch;
    var s' := if name in s.folder then s else Created(s, name);
    if name !in s.folder {
      CreatedLocks(s, name);
      CreatedContents(s, name);
      CreatedTransactions(s, name);
      CreatedWrites(s, name);
      CreatedRecords(s, name);
      CreatedNames(s, name);
      CreatedHandles(s, name);
    }
    AttachedLocks(s', owner, db, name);
    AttachedContents(s', owner, db, name);
    AttachedTransactions(s', owner, db, name);
    AttachedWrites(s', owner, db, name);
    AttachedRecords(s', owner, db, name);
    AttachedNames(s', owner, db, name);
    AttachedHandles(s', owner, db, name);
  }

  lemma RemovedKeepsInv(s: Store, name: string)
    requires StoreInv(s) && name in s.folder
    ensures StoreInv(Removed(s, name))
  {
    hide LocksMatch, ContentsMatch, TransactionsMatch, WritesMatch, RecordsMatch, NamesMatch, HandlesMatch;
    RemovedLocks(s, name);
    RemovedContents(s, name);
    RemovedTransactions(s, name);
    RemovedWrites(s, name);
    RemovedRecords(s, name);
    RemovedNames(s, name);
    RemovedHandles(s, name);
  }

  lemma ClosedKeepsInv(s: Store, hs: set<HandleId>)
    requires StoreInv(s)
    ensures StoreInv(Closed(s, hs))
  {
    hide LocksMatch, ContentsMatch, TransactionsMatch, WritesMatch, RecordsMatch, NamesMatch, HandlesMatch;
    ClosedLocks(s, hs);
    ClosedContents(s, hs);
    ClosedTransactions(s, hs);
    ClosedWrites(s, hs);
    ClosedRecords(s, hs);
    ClosedNames(s, hs);
    ClosedHandles(s, hs);
  }

  lemma LockedKeepsInv(s: Store, h: HandleId, statement: Statement)
    requires StoreInv(s) && CanLock(s, h, statement)
    ensures StoreInv(Locked(s, h))
  {
    hide LocksMatch, ContentsMatch, TransactionsMatch, WritesMatch, RecordsMatch, NamesMatch, HandlesMatch;
    LockedLocks(s, h, statement);
    LockedContents(s, h, statement);
    LockedTransactions(s, h, statement);
    LockedWrites(s, h, statement);
    LockedRecords(s, h, statement);
    LockedNames(s, h, statement);
    LockedHandles(s, h, statement);
  }

  lemma DiscardedKeepsInv(s: Store, h: HandleId)
    requires StoreInv(s) && ValidHandle(s, h)
    ensures StoreInv(Discarded(s, h))
  {
    hide LocksMatch, ContentsMatch, TransactionsMatch, WritesMatch, RecordsMatch, NamesMatch, HandlesMatch;
    DiscardedLocks(s, h);
    DiscardedContents(s, h);
    DiscardedTransactions(s, h);
    DiscardedWrites(s, h);
    DiscardedRecords(s, h);
    DiscardedNames(s, h);
    DiscardedHandles(s, h);
  }

  lemma NotedKeepsInv(s: Store, h: HandleId, r: RequestId, statement: Statement, done: bool)
    requires StoreInv(s) && ValidHandle(s, h) && r !in s.executions
    requires done ==> !statement.Write? && !statement.Commit?
    ensures StoreInv(Noted(s, h, r, statement, done))
  {
    hide LocksMatch, ContentsMatch, TransactionsMatch, WritesMatch, RecordsMatch, NamesMatch, HandlesMatch;
    NotedLocks(s, h, r, statement, done);
    NotedContents(s, h, r, statement, done);
    NotedTransactions(s, h, r, statement, done);
    NotedWrites(s, h, r, statement, done);
    NotedRecords(s, h, r, statement, done);
    NotedNames(s, h, r, statement, done);
    NotedHandles(s, h, r, statement, done);
  }

  lemma BegunKeepsInv(s: Store, h: HandleId, r: RequestId)
    requires StoreInv(s) && CanBegin(s, h, r)
    ensures StoreInv(Begun(s, h, r))
  {
    hide LocksMatch, ContentsMatch, TransactionsMatch, WritesMatch, RecordsMatch, NamesMatch, HandlesMatch;
    BegunLocks(s, h, r);
    BegunContents(s, h, r);
    BegunTransactions(s, h, r);
    BegunWrites(s, h, r);
    BegunRecords(s, h, r);
    BegunNames(s, h, r);
    BegunHandles(s, h, r);
  }

  lemma FailedKeepsInv(s: Store, h: HandleId, r: RequestId, statement: Statement, rollback: bool)
    requires StoreInv(s) && ValidHandle(s, h) && r !in s.executions
    ensures StoreInv(Failed(s, h, r, statement, rollback))
  {
    NotedKeepsInv(s, h, r, statement, false);
    if s.handles[h].explicit.None? || rollback {
      DiscardedKeepsInv(Noted(s, h, r, statement, false), h);
    }
  }

  lemma WriteKeepsInv(s: Store, h: HandleId, r: RequestId, effect: Effect)
    requires StoreInv(s) && CanFinish(s, h, Write(effect)) && r !in s.executions
    ensures StoreInv(Finished(s, h, r, Write(effect)))
  {
    hide LocksMatch, ContentsMatch, TransactionsMatch, WritesMatch, RecordsMatch, NamesMatch, HandlesMatch;
    var s1 := Noted(s, h, r, Write(effect), true);
    NotedLocks(s, h, r, Write(effect), true);
    NotedContents(s, h, r, Write(effect), true);
    NotedTransactions(s, h, r, Write(effect), true);
    NotedRecords(s, h, r, Write(effect), true);
    NotedNames(s, h, r, Write(effect), true);
    NotedHandles(s, h, r, Write(effect), true);
    var s2 := Written(s1, h, r, effect);
    WrittenLocks(s1, h, r, effect);
    WrittenContents(s1, h, r, effect);
    WrittenTransactions(s1, h, r, effect);
    WrittenRecords(s1, h, r, effect);
    WrittenNames(s1, h, r, effect);
    WrittenHandles(s1, h, r, effect);
    if s.handles[h].explicit.Some? {
      TransactionWrite(s, h, r, effect);
    } else {
      AutocommitWrite(s, h, r, effect);
      CommittedLocks(s2, h, r);
      CommittedContents(s2, h, r);
      CommittedTransactions(s2, h, r);
      CommittedRecords(s2, h, r);
      CommittedNames(s2, h, r);
      CommittedHandles(s2, h, r);
    }
  }

  lemma CommitKeepsInv(s: Store, h: HandleId, r: RequestId)
    requires StoreInv(s) && CanFinish(s, h, Commit) && r !in s.executions
    ensures StoreInv(Finished(s, h, r, Commit))
  {
    hide LocksMatch, ContentsMatch, TransactionsMatch, WritesMatch, RecordsMatch, NamesMatch, HandlesMatch;
    CompletedWrites(s, h, r);
    CompletedTransactions(s, h, r);
    var s1 := Noted(s, h, r, Commit, true);
    NotedLocks(s, h, r, Commit, true);
    NotedContents(s, h, r, Commit, true);
    NotedRecords(s, h, r, Commit, true);
    NotedNames(s, h, r, Commit, true);
    NotedHandles(s, h, r, Commit, true);
    var b := s.handles[h].explicit.value;
    if s.handles[h].work.Some? {
      CommittedLocks(s1, h, r);
      CommittedContents(s1, h, r);
      CommittedRecords(s1, h, r);
      CommittedNames(s1, h, r);
      CommittedHandles(s1, h, r);
      MarkedLocks(Committed(s1, h, r), b, r);
      MarkedContents(Committed(s1, h, r), b, r);
      MarkedRecords(Committed(s1, h, r), b, r);
      MarkedNames(Committed(s1, h, r), b, r);
      MarkedHandles(Committed(s1, h, r), b, r);
    } else {
      DiscardedLocks(s1, h);
      DiscardedContents(s1, h);
      DiscardedRecords(s1, h);
      DiscardedNames(s1, h);
      DiscardedHandles(s1, h);
      MarkedLocks(Discarded(s1, h), b, r);
      MarkedContents(Discarded(s1, h), b, r);
      MarkedRecords(Discarded(s1, h), b, r);
      MarkedNames(Discarded(s1, h), b, r);
      MarkedHandles(Discarded(s1, h), b, r);
    }
  }

  lemma NotedCanBegin(s: Store, h: HandleId, r: RequestId, immediate: bool)
    requires TransactionsMatch(s) && CanFinish(s, h, Begin(immediate)) && r !in s.executions
    ensures CanBegin(Noted(s, h, r, Begin(immediate), true), h, r)
  {
  }

  lemma BeginKeepsInv(s: Store, h: HandleId, r: RequestId, immediate: bool)
    requires StoreInv(s) && CanFinish(s, h, Begin(immediate)) && r !in s.executions
    ensures StoreInv(Finished(s, h, r, Begin(immediate)))
  {
    NotedKeepsInv(s, h, r, Begin(immediate), true);
    assert CanBegin(Noted(s, h, r, Begin(immediate), true), h, r) by {
      NotedCanBegin(s, h, r, immediate);
    }
    hide StoreInv, CanBegin;
    BegunKeepsInv(Noted(s, h, r, Begin(immediate), true), h, r);
  }

  /** Every statement that reaches DONE keeps the invariant. */
  lemma FinishedKeepsInv(s: Store, h: HandleId, r: RequestId, statement: Statement)
    requires StoreInv(s) && CanFinish(s, h, statement) && r !in s.executions
    ensures StoreInv(Finished(s, h, r, statement))
  {
    match statement
    case Read => NotedKeepsInv(s, h, r, Read, true);
    case Write(effect) => WriteKeepsInv(s, h, r, effect);
    case Begin(immediate) => BeginKeepsInv(s, h, r, immediate);
    case Commit => CommitKeepsInv(s, h, r);
    case Rollback =>
      NotedKeepsInv(s, h, r, Rollback, true);
      DiscardedKeepsInv(Noted(s, h, r, Rollback, true), h);
  }
}
