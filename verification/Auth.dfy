/**
 * Authentication (handle_request in RequestHandler.cpp): a server with a password simulates the
 * server without one on what remains of the runs when authentication messages, and everything
 * sent before the first correct one, are taken out.
 */
module Auth {
  import opened Wrappers
  import opened Store
  import opened Server

  function WithoutPassword(config: Config): Config {
    config.(password := "")
  }

  /** The gate keeps this request from the commands. */
  predicate Intercepted(config: Config, authenticated: bool, req: Request) {
    !authenticated || CorrectPassword(config, req)
  }

  /** The event is a request that the gate intercepts. */
  predicate IsIntercepted(config: Config, st: Server, e: Event)
    requires Enabled(st, e)
  {
    e.Receive? && Intercepted(config, st.conns[e.conn].authenticated, e.content)
  }

  /** The events of a run without the intercepted requests. */
  function Passed(config: Config, st: Server, events: seq<Event>): seq<Event>
    requires Run(config, st, events).Some?
    decreases |events|
  {
    if events == [] then [] else
    var rest := Passed(config, Step(config, st, events[0]), events[1..]);
    if IsIntercepted(config, st, events[0]) then rest else [events[0]] + rest
  }

  /** The handlers are in the same state but for the authentication flag. */
  ghost predicate SameHandler(x: Conn, y: Conn) {
    x.databases == y.databases && x.progress == y.progress
  }

  /** Same folder, databases, handles and handler states, and the same answers to the same requests. */
  ghost predicate SameEffects(st: Server, open: Server) {
    && open.store == st.store
    && open.conns.Keys == st.conns.Keys && (forall c :: c in st.conns ==> SameHandler(st.conns[c], open.conns[c]))
    && open.received <= st.received
    && (forall r :: r in open.answers ==> r in st.answers && st.answers[r] == open.answers[r])
  }

  /** A connection that has not authenticated has no handle and runs nothing. */
  ghost predicate Gated(st: Server) {
    forall c :: c in st.conns && !st.conns[c].authenticated ==>
      st.conns[c].progress.Idle? && st.conns[c].databases == map[]
  }

  ghost predicate AnsweredAreReceived(st: Server) {
    && (forall r :: r in st.answers ==> r in st.received)
    && forall c :: c in st.conns && !st.conns[c].progress.Idle? ==> st.conns[c].progress.request in st.received
  }

  // ----- The comparison -----

  /**
   * A request authenticates its connection, and is answered with `ok`, exactly when there is a
   * password and the member `auth` is that very text. Any other one of a connection that has not
   * authenticated is answered with `error`, or as malformed.
   */
  lemma PasswordAuthenticates(config: Config, st: Server, c: ConnId, r: RequestId, req: Request)
    requires AnsweredAreReceived(st) && Enabled(st, Receive(c, r, req))
    ensures var st' := Step(config, st, Receive(c, r, req));
            var same := config.password != "" && req.Request? && req.auth == Field.Text(config.password);
            && c in st'.conns && st'.conns[c].authenticated == (st.conns[c].authenticated || same)
            && (r in st'.answers && st'.answers[r] == AuthResult(true) <==> same)
            && (config.password != "" && !st.conns[c].authenticated && !same ==>
                  r in st'.answers
                  && st'.answers[r] == if req.Malformed? then GenericError(InvalidFormat) else AuthResult(false))
  {
    ServedAnswersOthers(config, st, c, r, req);
    hide Served, Removed, Closed, FolderListing, TextFields;
  }

  /** No command is answered as an authentication. */
  lemma ServedAnswersOthers(config: Config, st: Server, c: ConnId, r: RequestId, req: Request)
    ensures req.Request? ==>
              !Served(config, req).Authenticate?
              && (Served(config, req).Reply? ==> !Served(config, req).answer.AuthResult?)
  {
  }

  // ----- Intercepted requests -----

  /**
   * An intercepted request changes neither folder nor databases nor handles; it is answered
   * with the result of the authentication, or as malformed.
   */
  lemma InterceptedHasNoEffect(config: Config, st: Server, c: ConnId, r: RequestId, req: Request)
    requires config.password != "" && Enabled(st, Receive(c, r, req))
    requires Intercepted(config, st.conns[c].authenticated, req)
    ensures var st' := Step(config, st, Receive(c, r, req));
            var same := req.Request? && req.auth == Field.Text(config.password);
            && st'.store == st.store
            && st'.conns == st.conns[c := st.conns[c].(authenticated := st.conns[c].authenticated || same)]
            && st'.received == st.received + {r}
            && st'.answers == st.answers[r := if req.Malformed? then GenericError(InvalidFormat)
                                              else AuthResult(same)]
  {
    hide Served;
    assert st.conns[c].progress == Idle;
    assert Step(config, st, Receive(c, r, req)) == ReceiveStep(config, st, c, r, req);
    hide Step;
  }

  /** Behind the gate a request is dispatched as it is without a password. */
  lemma PassedIsServed(config: Config, authenticated: bool, req: Request, flag: bool)
    requires !Intercepted(config, authenticated, req)
    ensures Dispatched(config, authenticated, req) == Dispatched(WithoutPassword(config), flag, req)
    ensures !Dispatched(config, authenticated, req).Authenticate?
  {
    if req.Request? {
      assert Served(config, req) == Served(WithoutPassword(config), req);
    }
  }

  // ----- One step -----

  lemma InterceptedKeepsSame(config: Config, st: Server, open: Server, e: Event)
    requires config.password != "" && Enabled(st, e) && IsIntercepted(config, st, e)
    requires SameEffects(st, open) && Gated(st) && AnsweredAreReceived(open)
    ensures SameEffects(Step(config, st, e), open) && Gated(Step(config, st, e))
  {
    InterceptedHasNoEffect(config, st, e.conn, e.request, e.content);
    hide Step, Intercepted;
  }

  lemma EnabledAlike(st: Server, open: Server, e: Event)
    requires SameEffects(st, open) && Enabled(st, e)
    ensures Enabled(open, e)
  {
    assert e.conn in st.conns <==> e.conn in open.conns;
    if !e.Connect? {
      assert SameHandler(st.conns[e.conn], open.conns[e.conn]);
    }
    hide TextFields, CanLock, CanFinish, SameEffects;
  }

  /** Setting the state of one connection to the same progress and databases. */
  lemma SameAfterUpdate(st: Server, open: Server, st': Server, open': Server, c: ConnId)
    requires SameEffects(st, open) && c in st.conns
    requires c in st'.conns && c in open'.conns && SameHandler(st'.conns[c], open'.conns[c])
    requires st'.conns == st.conns[c := st'.conns[c]] && open'.conns == open.conns[c := open'.conns[c]]
    requires st'.store == open'.store && open'.received <= st'.received
    requires forall r :: r in open'.answers ==> r in st'.answers && st'.answers[r] == open'.answers[r]
    ensures SameEffects(st', open')
  {
  }

  lemma DeletedAlike(st: Server, open: Server, c: ConnId, db: string, name: string)
    requires SameEffects(st, open) && c in st.conns
    ensures SameEffects(DeletedDb(st, c, db, name), DeletedDb(open, c, db, name))
  {
    assert SameHandler(st.conns[c], open.conns[c]);
    hide Removed, Closed;
  }

  lemma AnsweredAlike(st: Server, open: Server, c: ConnId, r: RequestId, answer: Answer)
    requires SameEffects(st, open) && c in st.conns
    ensures SameEffects(Answered(st, c, r, answer), Answered(open, c, r, answer))
  {
    assert SameHandler(st.conns[c], open.conns[c]);
  }

  lemma ReceiveAlike(config: Config, st: Server, open: Server, c: ConnId, r: RequestId, req: Request)
    requires SameEffects(st, open) && Enabled(st, Receive(c, r, req)) && Enabled(open, Receive(c, r, req))
    requires !Intercepted(config, st.conns[c].authenticated, req)
    ensures SameEffects(ReceiveStep(config, st, c, r, req), ReceiveStep(WithoutPassword(config), open, c, r, req))
  {
    PassedIsServed(config, st.conns[c].authenticated, req, open.conns[c].authenticated);
    assert SameHandler(st.conns[c], open.conns[c]);
    var d := Dispatched(config, st.conns[c].authenticated, req);
    hide Dispatched, Intercepted, Enabled;
    var st1, open1 := st.(received := st.received + {r}), open.(received := open.received + {r});
    assert SameEffects(st1, open1);
    if d.RunQuery? {
      hide Answered, DeletedDb;
    } else if d.DeleteDb? {
      DeletedAlike(st1, open1, c, d.db, d.name);
      var st2, open2 := DeletedDb(st1, c, d.db, d.name), DeletedDb(open1, c, d.db, d.name);
      assert c in st2.conns && st.store.folder == open.store.folder;
      hide DeletedDb, SameEffects;
      AnsweredAlike(st2, open2, c, r, Deleted(d.name in st.store.folder));
      hide Answered;
    } else {
      var answer := if d.Reply? then d.answer else Listing(FolderListing(st.store));
      AnsweredAlike(st1, open1, c, r, answer);
      hide Answered, DeletedDb;
    }
  }

  lemma StepAlike(config: Config, st: Server, open: Server, e: Event)
    requires SameEffects(st, open) && Enabled(st, e) && Enabled(open, e) && !IsIntercepted(config, st, e)
    ensures SameEffects(Step(config, st, e), Step(WithoutPassword(config), open, e))
  {
    var c := e.conn;
    if e.Receive? {
      ReceiveAlike(config, st, open, c, e.request, e.content);
      assert Step(config, st, e) == ReceiveStep(config, st, c, e.request, e.content);
      assert Step(WithoutPassword(config), open, e)
          == ReceiveStep(WithoutPassword(config), open, c, e.request, e.content);
      hide ReceiveStep, Step, SameEffects;
    } else if e.Connect? {
      assert forall k :: k in st.conns ==> SameHandler(st.conns[k], open.conns[k]);
    } else if e.Disconnect? {
      assert SameHandler(st.conns[c], open.conns[c]);
      hide Closed;
    } else {
      if e.Open? || e.OpenFails? {
        OpenAlike(config, st, open, e);
      } else if e.Lock? || e.Row? {
        RowAlike(config, st, open, e);
      } else if e.Done? || e.StepFails? {
        EndAlike(config, st, open, e);
      } else {
        PrepareAlike(config, st, open, e);
      }
      hide Step, SameEffects;
    }
  }

  lemma OpenAlike(config: Config, st: Server, open: Server, e: Event)
    requires SameEffects(st, open) && Enabled(st, e) && Enabled(open, e)
    requires e.Open? || e.OpenFails?
    ensures SameEffects(Step(config, st, e), Step(WithoutPassword(config), open, e))
  {
    hide Locked, Finished, Failed, Opened, CanLock, CanFinish, TableOf;
    var c := e.conn;
    assert SameHandler(st.conns[c], open.conns[c]);
    SameAfterUpdate(st, open, Step(config, st, e), Step(WithoutPassword(config), open, e), c);
    hide SameEffects;
  }

  lemma PrepareAlike(config: Config, st: Server, open: Server, e: Event)
    requires SameEffects(st, open) && Enabled(st, e) && Enabled(open, e)
    requires e.PrepareBusy? || e.PrepareFails? || e.Prepare? || e.Finalize?
    ensures SameEffects(Step(config, st, e), Step(WithoutPassword(config), open, e))
  {
    hide Locked, Finished, Failed, Opened, CanLock, CanFinish, TableOf;
    var c := e.conn;
    assert SameHandler(st.conns[c], open.conns[c]);
    SameAfterUpdate(st, open, Step(config, st, e), Step(WithoutPassword(config), open, e), c);
    hide SameEffects;
  }

  lemma RowAlike(config: Config, st: Server, open: Server, e: Event)
    requires SameEffects(st, open) && Enabled(st, e) && Enabled(open, e)
    requires e.Lock? || e.Row?
    ensures SameEffects(Step(config, st, e), Step(WithoutPassword(config), open, e))
  {
    hide Locked, Finished, Failed, Opened, CanLock, CanFinish, TableOf;
    var c := e.conn;
    assert SameHandler(st.conns[c], open.conns[c]);
    SameAfterUpdate(st, open, Step(config, st, e), Step(WithoutPassword(config), open, e), c);
    hide SameEffects;
  }

  lemma EndAlike(config: Config, st: Server, open: Server, e: Event)
    requires SameEffects(st, open) && Enabled(st, e) && Enabled(open, e)
    requires e.Done? || e.StepFails?
    ensures SameEffects(Step(config, st, e), Step(WithoutPassword(config), open, e))
  {
    hide Locked, Finished, Failed, Opened, CanLock, CanFinish, TableOf;
    var c := e.conn;
    assert SameHandler(st.conns[c], open.conns[c]);
    SameAfterUpdate(st, open, Step(config, st, e), Step(WithoutPassword(config), open, e), c);
    hide SameEffects;
  }

  lemma StepKeepsReceived(config: Config, st: Server, e: Event)
    requires Enabled(st, e) && AnsweredAreReceived(st)
    ensures AnsweredAreReceived(Step(config, st, e))
  {
    if e.Receive? {
      ReceiveKeepsReceived(config, st, e);
    } else {
      QueryStepKeepsReceived(config, st, e);
    }
    hide Step, AnsweredAreReceived;
  }

  lemma ReceiveKeepsReceived(config: Config, st: Server, e: Event)
    requires Enabled(st, e) && AnsweredAreReceived(st) && e.Receive?
    ensures AnsweredAreReceived(Step(config, st, e))
  {
    hide Dispatched, Removed, Closed;
  }

  lemma QueryStepKeepsReceived(config: Config, st: Server, e: Event)
    requires Enabled(st, e) && AnsweredAreReceived(st) && !e.Receive?
    ensures AnsweredAreReceived(Step(config, st, e))
  {
    hide Closed, Locked, Finished, Failed, Opened, CanLock, CanFinish, TableOf;
  }

  lemma PassedKeepsGated(config: Config, st: Server, e: Event)
    requires Enabled(st, e) && !IsIntercepted(config, st, e) && Gated(st)
    ensures Gated(Step(config, st, e))
  {
    hide Dispatched, Removed, Closed, Locked, Finished, Failed, Opened, CanLock, CanFinish, TableOf;
  }

  // ----- Whole runs -----

  /** The simulation from any pair of related states. */
  lemma {:induction false} Simulates(config: Config, st: Server, open: Server, events: seq<Event>)
    requires config.password != "" && Run(config, st, events).Some?
    requires SameEffects(st, open) && Gated(st) && AnsweredAreReceived(open)
    ensures Run(WithoutPassword(config), open, Passed(config, st, events)).Some?
    ensures SameEffects(Run(config, st, events).value,
                        Run(WithoutPassword(config), open, Passed(config, st, events)).value)
    ensures Gated(Run(config, st, events).value)
    decreases |events|
  {
    hide SameEffects, Gated, AnsweredAreReceived, Enabled, Step, IsIntercepted;
    if events != [] {
      var e := events[0];
      if IsIntercepted(config, st, e) {
        InterceptedKeepsSame(config, st, open, e);
        Simulates(config, Step(config, st, e), open, events[1..]);
      } else {
        EnabledAlike(st, open, e);
        StepAlike(config, st, open, e);
        PassedKeepsGated(config, st, e);
        StepKeepsReceived(WithoutPassword(config), open, e);
        Simulates(config, Step(config, st, e), Step(WithoutPassword(config), open, e), events[1..]);
        assert Passed(config, st, events)[1..] == Passed(config, Step(config, st, e), events[1..]);
      }
    }
  }

  /**
   * Every run of a server with a password has the effects of the run of the server without one
   * that lacks exactly the intercepted requests.
   */
  lemma PasswordServerSimulatesOpenServer(config: Config, events: seq<Event>)
    requires config.password != "" && Run(config, START, events).Some?
    ensures Run(WithoutPassword(config), START, Passed(config, START, events)).Some?
    ensures SameEffects(Run(config, START, events).value,
                        Run(WithoutPassword(config), START, Passed(config, START, events)).value)
  {
    Simulates(config, START, START, events);
  }

  // ----- One connection -----

  /** What a client does: it connects, and sends requests. */
  datatype Item = Start | Sent(request: Request)

  function Items(events: seq<Event>, c: ConnId): seq<Item>
    decreases |events|
  {
    if events == [] then [] else
    var rest := Items(events[1..], c);
    if events[0].conn != c then rest
    else if events[0].Connect? then [Start] + rest
    else if events[0].Receive? then [Sent(events[0].content)] + rest
    else rest
  }

  /** The items the commands see. */
  function Visible(config: Config, authenticated: bool, items: seq<Item>): seq<Item>
    decreases |items|
  {
    if items == [] then []
    else if items[0].Start? then [Start] + Visible(config, false, items[1..])
    else if CorrectPassword(config, items[0].request) then Visible(config, true, items[1..])
    else if authenticated then [items[0]] + Visible(config, true, items[1..])
    else Visible(config, false, items[1..])
  }

  predicate IsAuthenticated(st: Server, c: ConnId) {
    c in st.conns && st.conns[c].authenticated
  }

  lemma FlagOfOthers(config: Config, st: Server, e: Event, c: ConnId)
    requires Enabled(st, e) && (e.conn != c || (!e.Connect? && !e.Receive? && !e.Disconnect?))
    ensures IsAuthenticated(Step(config, st, e), c) == IsAuthenticated(st, c)
  {
    hide Dispatched, Removed, Closed, Locked, Finished, Failed, Opened, CanLock, CanFinish, TableOf;
  }

  /** Connection c does not begin or end with these events. */
  ghost predicate SessionGoesOn(events: seq<Event>, c: ConnId) {
    forall i :: 0 <= i < |events| && events[i].conn == c ==> !events[i].Connect? && !events[i].Disconnect?
  }

  /** Connection c has sent the password, and the session it did so in goes on. */
  ghost predicate HasSentPassword(config: Config, events: seq<Event>, c: ConnId) {
    exists i :: 0 <= i < |events| && SendsPassword(config, events[i], c) && SessionGoesOn(events[i..], c)
  }

  ghost predicate SendsPassword(config: Config, e: Event, c: ConnId) {
    e.Receive? && e.conn == c && e.content.Request? && e.content.auth == Field.Text(config.password)
  }

  lemma FirstEvent(config: Config, events: seq<Event>, c: ConnId)
    requires events != []
    ensures SessionGoesOn(events, c)
            <==> SessionGoesOn(events[1..], c)
                 && (events[0].conn == c ==> !events[0].Connect? && !events[0].Disconnect?)
    ensures HasSentPassword(config, events, c)
            <==> HasSentPassword(config, events[1..], c)
                 || (SendsPassword(config, events[0], c) && SessionGoesOn(events, c))
  {
    hide SendsPassword;
    assert events[0..] == events;
    assert forall i :: 0 < i < |events| ==> events[1..][i - 1] == events[i] && events[1..][i - 1..] == events[i..];
    if HasSentPassword(config, events[1..], c) {
      var i :| 0 <= i < |events[1..]| && SendsPassword(config, events[1..][i], c) && SessionGoesOn(events[1..][i..], c);
      assert SendsPassword(config, events[i + 1], c) && events[i + 1..] == events[1..][i..];
    }
  }

  /** A connection counts as authenticated exactly when it has sent the password in its session. */
  lemma {:induction false} AuthenticatedMeansPassword(config: Config, st: Server, events: seq<Event>, c: ConnId)
    requires config.password != "" && Run(config, st, events).Some?
    ensures IsAuthenticated(Run(config, st, events).value, c)
            <==> HasSentPassword(config, events, c) || (IsAuthenticated(st, c) && SessionGoesOn(events, c))
    decreases |events|
  {
    hide HasSentPassword, SessionGoesOn, Step, Enabled, IsAuthenticated;
    if events == [] {
      NothingSent(config, c);
    } else {
      FirstEvent(config, events, c);
      FlagStep(config, st, events[0], c);
      AuthenticatedMeansPassword(config, Step(config, st, events[0]), events[1..], c);
    }
  }

  lemma NothingSent(config: Config, c: ConnId)
    ensures !HasSentPassword(config, [], c) && SessionGoesOn([], c)
  {
  }

  lemma FlagStep(config: Config, st: Server, e: Event, c: ConnId)
    requires config.password != "" && Enabled(st, e)
    ensures IsAuthenticated(Step(config, st, e), c)
            <==> SendsPassword(config, e, c)
                 || (IsAuthenticated(st, c) && (e.conn == c ==> !e.Connect? && !e.Disconnect?))
  {
    if e.conn != c || (!e.Connect? && !e.Receive? && !e.Disconnect?) {
      FlagOfOthers(config, st, e, c);
      hide Step, Enabled;
    } else if e.Receive? {
      FlagOfReceive(config, st, e);
      hide Step, Enabled;
    }
  }

  lemma FlagOfReceive(config: Config, st: Server, e: Event)
    requires config.password != "" && Enabled(st, e) && e.Receive?
    ensures IsAuthenticated(Step(config, st, e), e.conn)
            <==> SendsPassword(config, e, e.conn) || IsAuthenticated(st, e.conn)
  {
    hide Served, Removed, Closed, FolderListing, TextFields;
  }

  /** Before its first correct password a connection opens, lists and removes nothing. */
  lemma NothingBeforeAuthentication(config: Config, events: seq<Event>, e: Event)
    requires config.password != "" && Run(config, START, events).Some?
    requires var st := Run(config, START, events).value;
             Enabled(st, e) && !e.Connect? && !HasSentPassword(config, events, e.conn)
    ensures var st := Run(config, START, events).value;
            && (e.Receive? || e.Disconnect?) && st.conns[e.conn].databases == map[]
            && (e.Receive? ==>
                  && Step(config, st, e).store == st.store
                  && e.request in Step(config, st, e).answers
                  && !Step(config, st, e).answers[e.request].Listing?)
  {
    Simulates(config, START, START, events);
    AuthenticatedMeansPassword(config, START, events, e.conn);
    var st := Run(config, START, events).value;
    hide Run, Step, HasSentPassword;
    if e.Receive? {
      InterceptedHasNoEffect(config, st, e.conn, e.request, e.content);
    }
  }

  lemma FlagAfterPassed(config: Config, st: Server, e: Event)
    requires Enabled(st, e) && e.Receive? && !IsIntercepted(config, st, e)
    ensures IsAuthenticated(Step(config, st, e), e.conn)
  {
    hide Dispatched, Removed, Closed;
  }

  /** Which requests of a connection pass depends on nothing but its own requests. */
  lemma {:induction false} PassedItemsAreVisible(config: Config, st: Server, events: seq<Event>, c: ConnId)
    requires config.password != "" && Run(config, st, events).Some?
    ensures Items(Passed(config, st, events), c) == Visible(config, IsAuthenticated(st, c), Items(events, c))
    decreases |events|
  {
    if events != [] {
      var e := events[0];
      var st' := Step(config, st, e);
      PassedItemsAreVisible(config, st', events[1..], c);
      var rest := Passed(config, st', events[1..]);
      assert ([e] + rest)[1..] == rest;
      if e.conn != c || (!e.Connect? && !e.Receive? && !e.Disconnect?) {
        FlagOfOthers(config, st, e, c);
        hide Step, Intercepted;
      } else if e.Receive? {
        assert Items(events, c)[1..] == Items(events[1..], c);
        if IsIntercepted(config, st, e) {
          InterceptedHasNoEffect(config, st, c, e.request, e.content);
        } else {
          FlagAfterPassed(config, st, e);
        }
        hide Step;
      } else if e.Connect? {
        assert Items(events, c)[1..] == Items(events[1..], c);
      } else {
        VisibleOutsideSession(config, st', events[1..], c);
      }
    }
  }

  /** Without a connection the flag does not matter: the next item is its start. */
  lemma {:induction false} VisibleOutsideSession(config: Config, st: Server, events: seq<Event>, c: ConnId)
    requires Run(config, st, events).Some? && c !in st.conns
    ensures Visible(config, true, Items(events, c)) == Visible(config, false, Items(events, c))
    decreases |events|
  {
    if events != [] {
      var e := events[0];
      if e.conn == c {
        assert e.Connect?;
      } else {
        assert c !in Step(config, st, e).conns by {
          OthersStayAway(config, st, e, c);
        }
        hide Step;
        VisibleOutsideSession(config, Step(config, st, e), events[1..], c);
      }
    }
  }

  lemma OthersStayAway(config: Config, st: Server, e: Event, c: ConnId)
    requires Enabled(st, e) && e.conn != c && c !in st.conns
    ensures c !in Step(config, st, e).conns
  {
    hide Dispatched, Removed, Closed, Locked, Finished, Failed, Opened, CanLock, CanFinish, TableOf;
  }

  predicate AllSent(items: seq<Item>) {
    forall i :: 0 <= i < |items| ==> items[i].Sent?
  }

  predicate IsPassword(config: Config, item: Item) {
    item.Sent? && item.request.Request? && item.request.auth == Field.Text(config.password)
  }

  function WithoutPasswords(config: Config, items: seq<Item>): seq<Item> {
    if items == [] then []
    else (if IsPassword(config, items[0]) then [] else [items[0]]) + WithoutPasswords(config, items[1..])
  }

  /**
   * The requests of a connection that take effect are those after its first correct password,
   * without any further correct passwords.
   */
  lemma {:induction false} VisibleIsSuffixWithoutPasswords(config: Config, items: seq<Item>, first: nat)
    requires config.password != "" && AllSent(items) && first <= |items|
    requires forall i :: 0 <= i < first ==> !IsPassword(config, items[i])
    requires first < |items| ==> IsPassword(config, items[first])
    ensures Visible(config, false, items)
         == if first < |items| then WithoutPasswords(config, items[first + 1..]) else []
    decreases |items|
  {
    if items != [] {
      if first == 0 {
        VisibleAuthenticated(config, items[1..]);
      } else {
        VisibleIsSuffixWithoutPasswords(config, items[1..], first - 1);
        assert !IsPassword(config, items[0]);
        if first < |items| {
          assert items[1..][first..] == items[first + 1..];
        }
      }
    }
  }

  lemma {:induction false} VisibleAuthenticated(config: Config, items: seq<Item>)
    requires config.password != "" && AllSent(items)
    ensures Visible(config, true, items) == WithoutPasswords(config, items)
    decreases |items|
  {
    if items != [] {
      VisibleAuthenticated(config, items[1..]);
      assert items[0].Sent?;
    }
  }
}
