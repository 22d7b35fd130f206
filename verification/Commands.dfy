/**
 * The commands by their words (handle_request, handle_list and handle_delete_db in
 * RequestHandler.cpp): what a request that passes the gate is answered, or becomes.
 */
module Commands {
  import opened Wrappers
  import opened Store
  import opened Server
  import Names

  /** Letter by letter one of the two. */
  predicate Spells(cmd: string, lower: string, upper: string)
    requires |lower| == |upper|
  {
    |cmd| == |upper| && forall i :: 0 <= i < |cmd| ==> cmd[i] == lower[i] || cmd[i] == upper[i]
  }

  lemma LettersIgnoringCase(cmd: string, lower: string, upper: string)
    requires |lower| == |upper|
    requires forall i :: 0 <= i < |upper| ==>
               if upper[i] == '_' then lower[i] == '_'
               else 'A' <= upper[i] <= 'Z' && lower[i] as int == upper[i] as int + 32
    ensures EqualsIgnoringCase(cmd, upper) <==> Spells(cmd, lower, upper)
  {
    if |cmd| == |upper| {
      forall i | 0 <= i < |cmd|
        ensures ToUpper(cmd[i]) == ToUpper(upper[i]) <==> cmd[i] == lower[i] || cmd[i] == upper[i]
      {
        SameLetter(cmd[i], lower[i], upper[i]);
      }
    }
  }

  lemma SameLetter(c: char, lower: char, upper: char)
    requires if upper == '_' then lower == '_' else 'A' <= upper <= 'Z' && lower as int == upper as int + 32
    ensures ToUpper(c) == ToUpper(upper) <==> c == lower || c == upper
  {
    if 'a' <= c <= 'z' && upper != '_' && ToUpper(c) == upper {
      assert c as int == lower as int;
    }
  }

  /** The three words of commands, in any mixture of cases. */
  lemma CommandWords(cmd: string)
    ensures EqualsIgnoringCase(cmd, "QUERY") <==> Spells(cmd, "query", "QUERY")
    ensures EqualsIgnoringCase(cmd, "LIST") <==> Spells(cmd, "list", "LIST")
    ensures EqualsIgnoringCase(cmd, "DELETE_DB") <==> Spells(cmd, "delete_db", "DELETE_DB")
  {
    LettersIgnoringCase(cmd, "query", "QUERY");
    LettersIgnoringCase(cmd, "list", "LIST");
    LettersIgnoringCase(cmd, "delete_db", "DELETE_DB");
  }

  lemma WordsDiffer(cmd: string)
    ensures Spells(cmd, "query", "QUERY") ==> !Spells(cmd, "list", "LIST") && !Spells(cmd, "delete_db", "DELETE_DB")
    ensures Spells(cmd, "list", "LIST") ==> !Spells(cmd, "delete_db", "DELETE_DB")
  {
  }

  lemma SuffixIs(name: string, suffix: string)
    ensures EndsWith(name, suffix) <==> exists stem :: name == stem + suffix
  {
    if EndsWith(name, suffix) {
      assert name == name[..|name| - |suffix|] + suffix;
    }
    if stem :| name == stem + suffix {
      assert name[|name| - |suffix|..] == suffix;
    }
  }

  /** SQLite's sidecar files by their suffixes. */
  lemma SidecarSuffixes(name: string)
    ensures IsSidecar(name)
       <==> (exists stem :: name == stem + "-wal") || (exists stem :: name == stem + "-shm")
            || (exists stem :: name == stem + "-journal")
  {
    SuffixIs(name, "-wal");
    SuffixIs(name, "-shm");
    SuffixIs(name, "-journal");
  }

  /** A request without the correct password that the gate lets through. */
  predicate PassesGate(config: Config, conn: Conn, req: Request) {
    req.Request? && (config.password == "" || (conn.authenticated && req.auth != Field.Text(config.password)))
  }

  /** The request is answered by this event with this answer. */
  predicate AnsweredNow(config: Config, st: Server, c: ConnId, r: RequestId, req: Request, answer: Answer)
    requires Enabled(st, Receive(c, r, req))
  {
    var st' := Step(config, st, Receive(c, r, req));
    r in st'.answers && st'.answers[r] == answer && c in st'.conns && st'.conns[c].progress.Idle?
  }

  /** A request without a command, or with another one than the three. */
  lemma OtherCommandsAreRefused(config: Config, st: Server, c: ConnId, r: RequestId, req: Request)
    requires Enabled(st, Receive(c, r, req)) && PassesGate(config, st.conns[c], req)
    ensures req.cmd.Absent? ==> AnsweredNow(config, st, c, r, req, GenericError(NoCommandSpecified))
    ensures req.cmd.Text? && !Spells(req.cmd.text, "query", "QUERY") && !Spells(req.cmd.text, "list", "LIST")
            && !Spells(req.cmd.text, "delete_db", "DELETE_DB")
            ==> AnsweredNow(config, st, c, r, req, GenericError(UnknownCommand))
  {
    if req.cmd.Text? {
      CommandWords(req.cmd.text);
    }
    hide Spells, EqualsIgnoringCase;
  }

  /** LIST, in any mixture of cases, lists the folder's names but for the sidecar files. */
  lemma ListIsAnswered(config: Config, st: Server, c: ConnId, r: RequestId, req: Request)
    requires Enabled(st, Receive(c, r, req)) && PassesGate(config, st.conns[c], req)
    requires req.cmd.Text? && Spells(req.cmd.text, "list", "LIST")
    ensures AnsweredNow(config, st, c, r, req, Listing(FolderListing(st.store)))
    ensures forall name :: name in FolderListing(st.store) <==>
              name in st.store.folder && !((exists stem :: name == stem + "-wal")
                || (exists stem :: name == stem + "-shm") || (exists stem :: name == stem + "-journal"))
  {
    CommandWords(req.cmd.text);
    WordsDiffer(req.cmd.text);
    forall name
      ensures IsSidecar(name)
         <==> (exists stem :: name == stem + "-wal") || (exists stem :: name == stem + "-shm")
              || (exists stem :: name == stem + "-journal")
    {
      SidecarSuffixes(name);
    }
    hide Spells, EqualsIgnoringCase, IsSidecar;
  }

  /**
   * QUERY opens the database of an accepted name when both members are there. A missing `db` is
   * reported before a missing `query`, and that before a name that is refused.
   */
  lemma QueryIsOpened(config: Config, st: Server, c: ConnId, r: RequestId, req: Request)
    requires Enabled(st, Receive(c, r, req)) && PassesGate(config, st.conns[c], req)
    requires req.cmd.Text? && Spells(req.cmd.text, "query", "QUERY")
    ensures req.db.Absent? ==> AnsweredNow(config, st, c, r, req, GenericError(NoDatabaseSpecified))
    ensures req.db.Text? && req.query.Absent? ==>
              AnsweredNow(config, st, c, r, req, GenericError(ErrorReadingFromClient))
    ensures req.db.Text? && req.query.Text? && !Names.IsSafeName(config.folder, req.db.text) ==>
              AnsweredNow(config, st, c, r, req, GenericError(NoDatabaseSpecified))
    ensures req.db.Text? && req.query.Text? && Names.IsSafeName(config.folder, req.db.text) ==>
              var st' := Step(config, st, Receive(c, r, req));
              c in st'.conns
              && st'.conns[c].progress == Opening(r, req.db.text, Names.Child(config.folder, req.db.text).value)
  {
    CommandWords(req.cmd.text);
    hide Spells, EqualsIgnoringCase, Names.IsSafeName;
  }

  /** DELETE_DB answers whether a file was there, and that file is in the folder no more. */
  lemma DeleteIsAnswered(config: Config, st: Server, c: ConnId, r: RequestId, req: Request)
    requires Enabled(st, Receive(c, r, req)) && PassesGate(config, st.conns[c], req)
    requires req.cmd.Text? && Spells(req.cmd.text, "delete_db", "DELETE_DB")
    ensures req.db.Absent? ==> AnsweredNow(config, st, c, r, req, GenericError(NoDatabaseSpecified))
    ensures req.db.Text? && !Names.IsSafeName(config.folder, req.db.text) ==>
              AnsweredNow(config, st, c, r, req, GenericError(NoDatabaseSpecified))
    ensures req.db.Text? && Names.IsSafeName(config.folder, req.db.text) ==>
              var child := Names.Child(config.folder, req.db.text).value;
              var there := child in st.store.folder && Names.Reaches(config.directories, config.folder, req.db.text);
              && AnsweredNow(config, st, c, r, req, Deleted(there))
              && Step(config, st, Receive(c, r, req)).store.folder.Keys
                 == st.store.folder.Keys - (if there then {child} else {})
  {
    hide AnsweredNow, Served, Dispatched, Step, Spells, EqualsIgnoringCase;
    hide Names.IsSafeName, Names.Child, Names.Reaches;
    CommandWords(req.cmd.text);
    WordsDiffer(req.cmd.text);
    ServedDelete(config, req);
    DispatchBehindGate(config, st.conns[c], req);
    var d := Dispatched(config, st.conns[c].authenticated, req);
    if d.Reply? {
      ReplyNow(config, st, c, r, req, d.answer);
    } else {
      DeleteNow(config, st, c, r, req, d.db, d.name);
    }
  }

  lemma DispatchBehindGate(config: Config, conn: Conn, req: Request)
    requires PassesGate(config, conn, req)
    ensures Dispatched(config, conn.authenticated, req) == Served(config, req)
  {
  }

  lemma ReplyNow(config: Config, st: Server, c: ConnId, r: RequestId, req: Request, answer: Answer)
    requires Enabled(st, Receive(c, r, req)) && Dispatched(config, st.conns[c].authenticated, req) == Reply(answer)
    ensures AnsweredNow(config, st, c, r, req, answer)
    ensures Step(config, st, Receive(c, r, req)).store == st.store
  {
    hide Dispatched;
  }

  lemma DeleteNow(config: Config, st: Server, c: ConnId, r: RequestId, req: Request, db: string, name: string)
    requires Enabled(st, Receive(c, r, req)) && Dispatched(config, st.conns[c].authenticated, req) == DeleteDb(db, name)
    ensures AnsweredNow(config, st, c, r, req, Deleted(name in st.store.folder))
    ensures Step(config, st, Receive(c, r, req)).store.folder.Keys == st.store.folder.Keys - {name}
  {
    FolderAfterRemoval(st.store, name);
    hide Dispatched, Removed;
  }

  lemma ServedDelete(config: Config, req: Request)
    requires req.Request? && req.cmd.Text? && EqualsIgnoringCase(req.cmd.text, "DELETE_DB")
    requires !EqualsIgnoringCase(req.cmd.text, "QUERY") && !EqualsIgnoringCase(req.cmd.text, "LIST")
    ensures Served(config, req)
            == if !req.db.Text? || !Names.IsSafeName(config.folder, req.db.text)
               then Reply(GenericError(NoDatabaseSpecified))
               else if !Names.Reaches(config.directories, config.folder, req.db.text) then Reply(Deleted(false))
               else DeleteDb(req.db.text, Names.Child(config.folder, req.db.text).value)
  {
  }

  lemma FolderAfterRemoval(s: Store, name: string)
    ensures Removed(s, name).folder.Keys == s.folder.Keys - {name}
  {
  }
}
