/**
 * The TV input manager service: the session broker that keeps, per user,
 * the table of TV inputs, the bindings to the input services, the sessions
 * and the clients, and answers binder calls and binder deaths under one lock.
 *
 * The per-user records (UserState, ServiceState, SessionState, ClientState)
 * are values here: the "Locked" helpers are functions from the tables before
 * to the tables after, and the service object keeps the user map and the log
 * of outbound calls.
 */
module TvServer {
  import opened Wrappers
  import opened Lists

  /** A binder identity: a session token, a client, a state callback or a backend session. */
  type Token = int

  /** UserHandle.USER_OWNER, the user the service starts with. */
  const USER_OWNER: int := 0
  /** Process.SYSTEM_UID, which may act on any session. */
  const SYSTEM_UID: int := 1000

  const INPUT_STATE_CONNECTED: int := 0
  const INPUT_STATE_CONNECTED_STANDBY: int := 1
  const INPUT_STATE_DISCONNECTED: int := 2

  /** The binding to one input service: who needs it, and where the connection stands. */
  datatype ServiceState = ServiceState(
    clientTokens: seq<Token>,
    sessionTokens: seq<Token>,
    service: Option<Token>,
    hasCallback: bool,
    bound: bool,
    reconnecting: bool)

  /** One session: who asked for it, and its backend session once the input service made one. */
  datatype SessionState = SessionState(
    inputId: string,
    client: Token,
    seqNum: int,
    callingUid: int,
    userId: int,
    session: Option<Token>,
    logUri: Option<int>)

  datatype ClientState = ClientState(inputIds: seq<string>, sessionTokens: seq<Token>)

  /** The tables of one user; inputMap maps an input id to the input's last reported state. */
  datatype UserState = UserState(
    inputMap: map<string, int>,
    clientStateMap: map<Token, ClientState>,
    serviceStateMap: map<string, ServiceState>,
    sessionStateMap: map<Token, SessionState>,
    callbackSet: set<Token>)

  /** The calls the service makes to others, in the order it makes them. */
  datatype ServerEvent =
    | BindRequested(inputId: string, userId: int)
    | UnbindRequested(inputId: string)
    | BackendCallbackRegistered(inputId: string)
    | BackendCallbackUnregistered(inputId: string)
    | BackendSessionRequested(inputId: string, sessionToken: Token)
    | BackendSessionReleased(session: Token)
    | BackendTuned(session: Token, channelId: int)
    | SessionTokenSent(client: Token, inputId: string, token: Option<Token>, seqNum: int)
    | SessionReleasedSent(client: Token, seqNum: int)
    | StateChangeSent(callback: Token, inputId: string, state: int)
    | LogEntryClosed(logUri: int)
    | LogEntryOpened(newLogUri: Option<int>, channelId: int)

  /** The tables after a helper ran, and the calls it made. */
  datatype Step = Step(us: UserState, events: seq<ServerEvent>)

  /**
   * What a helper needs beyond the tables: the user it works for, the
   * current user, and the answer bindServiceAsUser gives.
   */
  datatype Context = Context(userId: int, currentUserId: int, bindSucceeds: bool)

  function NewUserState(inputs: map<string, int>): (us: UserState)
    ensures us.inputMap == inputs
  {
    UserState(inputs, map[], map[], map[], {})
  }

  const NewServiceState: ServiceState := ServiceState([], [], None, false, false, false)

  predicate IsEmpty(cs: ClientState)
  {
    cs.inputIds == [] && cs.sessionTokens == []
  }

  // ---------------------------------------------------------------------
  // The invariant that ties the tables together
  // ---------------------------------------------------------------------

  /** A session is listed by the service of its input. */
  ghost predicate SessionListed(us: UserState, t: Token)
    requires t in us.sessionStateMap
  {
    var s := us.sessionStateMap[t];
    s.inputId in us.serviceStateMap && t in us.serviceStateMap[s.inputId].sessionTokens
  }

  /**
   * A service lists each of its sessions once, and only sessions of its own
   * input; it lists each client once, and only clients that watch its input.
   */
  ghost predicate ServiceListOk(us: UserState, id: string)
    requires id in us.serviceStateMap
  {
    var ss := us.serviceStateMap[id];
    && (ss.hasCallback ==> ss.service.Some?)
    && NoDuplicates(ss.sessionTokens)
    && (forall t | t in ss.sessionTokens :: t in us.sessionStateMap && us.sessionStateMap[t].inputId == id)
    && NoDuplicates(ss.clientTokens)
    && (forall c | c in ss.clientTokens :: c in us.clientStateMap && id in us.clientStateMap[c].inputIds)
  }

  /**
   * A client entry is never empty, lists each of its created sessions once,
   * and lists each input once, only inputs whose service lists it back.
   */
  ghost predicate ClientListOk(us: UserState, c: Token)
    requires c in us.clientStateMap
  {
    var cs := us.clientStateMap[c];
    && !IsEmpty(cs)
    && NoDuplicates(cs.sessionTokens)
    && (forall t | t in cs.sessionTokens ::
          t in us.sessionStateMap && us.sessionStateMap[t].client == c
          && us.sessionStateMap[t].session.Some?)
    && NoDuplicates(cs.inputIds)
    && (forall id | id in cs.inputIds ::
          id in us.serviceStateMap && c in us.serviceStateMap[id].clientTokens)
  }

  ghost predicate Consistent(us: UserState)
  {
    && (forall t | t in us.sessionStateMap :: SessionListed(us, t))
    && (forall id | id in us.serviceStateMap :: ServiceListOk(us, id))
    && (forall c | c in us.clientStateMap :: ClientListOk(us, c))
  }

  lemma EmptyUserConsistent(inputs: map<string, int>)
    ensures Consistent(NewUserState(inputs))
  {
  }

  /** The invariant looks only at the three tables and at which inputs are known. */
  lemma SameTablesConsistent(a: UserState, b: UserState)
    requires Consistent(a)
    requires b.sessionStateMap == a.sessionStateMap && b.serviceStateMap == a.serviceStateMap
    requires b.clientStateMap == a.clientStateMap
    ensures Consistent(b)
  {
    forall t | t in b.sessionStateMap
      ensures SessionListed(b, t)
    {
      assert SessionListed(a, t);
    }
    forall id | id in b.serviceStateMap
      ensures ServiceListOk(b, id)
    {
      assert ServiceListOk(a, id);
    }
    forall c | c in b.clientStateMap
      ensures ClientListOk(b, c)
    {
      assert ClientListOk(a, c);
    }
  }

  // ---------------------------------------------------------------------
  // updateServiceConnectionLocked
  // ---------------------------------------------------------------------

  /** The service is reconnecting and still has sessions to drain. */
  ghost predicate Draining(us: UserState, inputId: string)
  {
    inputId in us.serviceStateMap
    && us.serviceStateMap[inputId].reconnecting
    && us.serviceStateMap[inputId].sessionTokens != []
  }

  /** Not connected, wanted by some client or session, for the current user, not yet bound. */
  ghost predicate BindWanted(us: UserState, inputId: string, cx: Context)
  {
    && inputId in us.serviceStateMap
    && !Draining(us, inputId)
    && var ss := us.serviceStateMap[inputId];
    && ss.service.None?
    && (ss.clientTokens != [] || ss.sessionTokens != [])
    && cx.userId == cx.currentUserId
    && !ss.bound
  }

  /** Connected, and wanted by no client and no session. */
  ghost predicate UnbindWanted(us: UserState, inputId: string)
  {
    && inputId in us.serviceStateMap
    && !Draining(us, inputId)
    && var ss := us.serviceStateMap[inputId];
    && ss.service.Some?
    && ss.clientTokens == [] && ss.sessionTokens == []
  }

  /** Every table but serviceStateMap is the same, and so is every service entry but inputId's. */
  ghost predicate OnlyServiceChanged(a: UserState, b: UserState, inputId: string)
  {
    && b.inputMap == a.inputMap
    && b.clientStateMap == a.clientStateMap
    && b.sessionStateMap == a.sessionStateMap
    && b.callbackSet == a.callbackSet
    && b.serviceStateMap - {inputId} == a.serviceStateMap - {inputId}
  }

  /** The entry kept for inputId has the same token lists, backend and callback as before. */
  ghost predicate SameBinding(a: ServiceState, b: ServiceState)
  {
    b.clientTokens == a.clientTokens && b.sessionTokens == a.sessionTokens
    && b.service == a.service && b.hasCallback == a.hasCallback
  }

  /**
   * updateServiceConnectionLocked: binds a service that is needed and not
   * connected, unbinds and forgets one that is connected and not needed,
   * and while reconnecting waits until every session is gone.
   */
  function UpdateServiceConnection(us: UserState, inputId: string, cx: Context): (r: Step)
    ensures OnlyServiceChanged(us, r.us, inputId)
    ensures r.events == [] || r.events == [BindRequested(inputId, cx.userId)]
            || r.events == [UnbindRequested(inputId)]
    ensures r.events == [BindRequested(inputId, cx.userId)] <==> BindWanted(us, inputId, cx)
    ensures r.events == [UnbindRequested(inputId)] <==> UnbindWanted(us, inputId)
    ensures inputId in r.us.serviceStateMap <==> inputId in us.serviceStateMap && !UnbindWanted(us, inputId)
    ensures inputId in r.us.serviceStateMap ==>
      var before := us.serviceStateMap[inputId];
      var after := r.us.serviceStateMap[inputId];
      && SameBinding(before, after)
      && after.reconnecting == Draining(us, inputId)
      && after.bound == (if BindWanted(us, inputId, cx) then cx.bindSucceeds else before.bound)
    ensures Draining(us, inputId) ==> r == Step(us, [])
    ensures Consistent(us) ==> Consistent(r.us)
    ensures KeepsWatchedServices(us, r.us)
  {
    if inputId !in us.serviceStateMap then Step(us, [])
    else
      var ss := us.serviceStateMap[inputId];
      if ss.reconnecting && ss.sessionTokens != [] then Step(us, [])
      else
        var ss1 := ss.(reconnecting := false);
        var isStateEmpty := ss1.clientTokens == [] && ss1.sessionTokens == [];
        assert Consistent(us) ==>
          && Consistent(us.(serviceStateMap := us.serviceStateMap[inputId := ss1]))
          && Consistent(us.(serviceStateMap := us.serviceStateMap[inputId := ss1.(bound := cx.bindSucceeds)]))
          && (isStateEmpty ==> Consistent(us.(serviceStateMap := us.serviceStateMap - {inputId})))
        by {
          if Consistent(us) {
            assert ServiceListOk(us, inputId);
            BindingConsistent(us, inputId, ss1);
            BindingConsistent(us, inputId, ss1.(bound := cx.bindSucceeds));
            if isStateEmpty { UnbindConsistent(us, inputId); }
          }
        }
        assert us.serviceStateMap[inputId := ss1] - {inputId} == us.serviceStateMap - {inputId}
            == us.serviceStateMap[inputId := ss1.(bound := cx.bindSucceeds)] - {inputId} by {
          UpdateOutside(us.serviceStateMap, inputId, ss1);
          UpdateOutside(us.serviceStateMap, inputId, ss1.(bound := cx.bindSucceeds));
        }
        assert (us.serviceStateMap - {inputId}) - {inputId} == us.serviceStateMap - {inputId} by {
          RemoveTwice(us.serviceStateMap, inputId);
        }
        var bind := ss1.service.None? && !isStateEmpty && cx.userId == cx.currentUserId && !ss1.bound;
        var unbind := ss1.service.Some? && isStateEmpty;
        var services :=
          if bind then us.serviceStateMap[inputId := ss1.(bound := cx.bindSucceeds)]
          else if unbind then us.serviceStateMap - {inputId}
          else us.serviceStateMap[inputId := ss1];
        assert services - {inputId} == us.serviceStateMap - {inputId};
        var r := Step(us.(serviceStateMap := services),
                      if bind then [BindRequested(inputId, cx.userId)]
                      else if unbind then [UnbindRequested(inputId)]
                      else []);
        KeepsWatchedAt(us, r.us, inputId);
        r
  }

  // ---------------------------------------------------------------------
  // Session lookups
  // ---------------------------------------------------------------------

  /**
   * getSessionStateLocked: the user must exist, the token must name a
   * session, and only the system or the uid that created the session may
   * reach it.
   */
  function GetSessionStateLocked(users: map<int, UserState>, token: Token, callingUid: int, userId: int)
    : (r: Result<SessionState, Exception>)
    ensures r == Failure(IllegalStateException) <==> userId !in users
    ensures r == Failure(IllegalArgumentException) <==>
      userId in users && token !in users[userId].sessionStateMap
    ensures r == Failure(SecurityException) <==>
      && userId in users && token in users[userId].sessionStateMap
      && callingUid != SYSTEM_UID && callingUid != users[userId].sessionStateMap[token].callingUid
    ensures r.Success? ==>
      && userId in users && token in users[userId].sessionStateMap
      && r.value == users[userId].sessionStateMap[token]
  {
    if userId !in users then Failure(IllegalStateException)
    else if token !in users[userId].sessionStateMap then Failure(IllegalArgumentException)
    else
      var s := users[userId].sessionStateMap[token];
      if callingUid != SYSTEM_UID && callingUid != s.callingUid then Failure(SecurityException)
      else Success(s)
  }

  /** getSessionLocked: as the session state lookup, and the backend session must exist already. */
  function GetSessionLocked(users: map<int, UserState>, token: Token, callingUid: int, userId: int)
    : (r: Result<Token, Exception>)
    ensures GetSessionStateLocked(users, token, callingUid, userId).Failure? ==>
      r == Failure(GetSessionStateLocked(users, token, callingUid, userId).error)
    ensures GetSessionStateLocked(users, token, callingUid, userId).Success? ==>
      var s := GetSessionStateLocked(users, token, callingUid, userId).value;
      && (s.session.None? ==> r == Failure(IllegalStateException))
      && (s.session.Some? ==> r == Success(s.session.value))
  {
    match GetSessionStateLocked(users, token, callingUid, userId)
    case Failure(e) => Failure(e)
    case Success(s) =>
      if s.session.None? then Failure(IllegalStateException) else Success(s.session.value)
  }

  /** A lookup that succeeds was made by the system or by the session's creator. */
  lemma LookupOnlyByCreatorOrSystem(users: map<int, UserState>, token: Token, callingUid: int, userId: int)
    requires GetSessionLocked(users, token, callingUid, userId).Success?
    ensures userId in users && token in users[userId].sessionStateMap
    ensures callingUid == SYSTEM_UID || callingUid == users[userId].sessionStateMap[token].callingUid
    ensures users[userId].sessionStateMap[token].session.Some?
  {
  }

  // ---------------------------------------------------------------------
  // removeSessionStateLocked and releaseSessionLocked
  // ---------------------------------------------------------------------

  /** The client entry after one of its session tokens is gone: dropped when nothing is left. */
  function WithoutClientSession(clients: map<Token, ClientState>, c: Token, token: Token)
    : (r: map<Token, ClientState>)
    ensures r - {c} == clients - {c}
    ensures c in r <==> c in clients && !IsEmpty(clients[c].(sessionTokens := RemoveFirst(clients[c].sessionTokens, token)))
    ensures c in r ==> r[c] == clients[c].(sessionTokens := RemoveFirst(clients[c].sessionTokens, token))
  {
    if c !in clients then clients
    else
      var cs := clients[c].(sessionTokens := RemoveFirst(clients[c].sessionTokens, token));
      if IsEmpty(cs) then clients - {c} else clients[c := cs]
  }

  /**
   * The table edits of removeSessionStateLocked: the token leaves the session
   * table, its client's list (the client entry goes when it is left empty)
   * and its service's list; nothing else changes.
   */
  function DropSession(us: UserState, token: Token): (r: UserState)
    requires token in us.sessionStateMap
    ensures r.sessionStateMap == us.sessionStateMap - {token}
    ensures var s := us.sessionStateMap[token];
      && r.clientStateMap == WithoutClientSession(us.clientStateMap, s.client, token)
      && r.serviceStateMap - {s.inputId} == us.serviceStateMap - {s.inputId}
      && (s.inputId in r.serviceStateMap <==> s.inputId in us.serviceStateMap)
      && (s.inputId in r.serviceStateMap ==>
            r.serviceStateMap[s.inputId]
            == us.serviceStateMap[s.inputId].(sessionTokens := RemoveFirst(us.serviceStateMap[s.inputId].sessionTokens, token)))
    ensures r.inputMap == us.inputMap && r.callbackSet == us.callbackSet
    ensures KeepsWatchedServices(us, r)
  {
    var s := us.sessionStateMap[token];
    var services :=
      if s.inputId in us.serviceStateMap then
        var ss := us.serviceStateMap[s.inputId];
        us.serviceStateMap[s.inputId := ss.(sessionTokens := RemoveFirst(ss.sessionTokens, token))]
      else us.serviceStateMap;
    us.(sessionStateMap := us.sessionStateMap - {token},
        clientStateMap := WithoutClientSession(us.clientStateMap, s.client, token),
        serviceStateMap := services)
  }

  /** Dropping a session keeps the tables consistent, and the token is then in no list. */
  lemma DropSessionConsistent(us: UserState, token: Token)
    requires Consistent(us) && token in us.sessionStateMap
    ensures Consistent(DropSession(us, token))
    ensures forall c | c in DropSession(us, token).clientStateMap ::
      token !in DropSession(us, token).clientStateMap[c].sessionTokens
    ensures forall id | id in DropSession(us, token).serviceStateMap ::
      token !in DropSession(us, token).serviceStateMap[id].sessionTokens
  {
    var r := DropSession(us, token);
    var s := us.sessionStateMap[token];
    forall t | t in r.sessionStateMap
      ensures SessionListed(r, t)
    {
      assert SessionListed(us, t);
      var id := us.sessionStateMap[t].inputId;
      if id == s.inputId {
        RemoveFirstKeepsOthers(us.serviceStateMap[id].sessionTokens, token, t);
      }
    }
    forall id | id in r.serviceStateMap
      ensures ServiceListOk(r, id) && token !in r.serviceStateMap[id].sessionTokens
    {
      assert ServiceListOk(us, id);
      if id == s.inputId {
        RemoveFirstKeepsNoDuplicates(us.serviceStateMap[id].sessionTokens, token);
      }
    }
    forall c | c in r.clientStateMap
      ensures ClientListOk(r, c) && token !in r.clientStateMap[c].sessionTokens
    {
      assert ClientListOk(us, c);
      if c == s.client {
        RemoveFirstKeepsNoDuplicates(us.clientStateMap[c].sessionTokens, token);
      }
    }
  }

  /** Events that only touch tables, bindings and the watch log. */
  ghost predicate TableEvents(evs: seq<ServerEvent>)
  {
    forall e | e in evs :: e.LogEntryClosed? || e.BindRequested? || e.UnbindRequested?
  }

  /**
   * removeSessionStateLocked: removing an unknown token throws
   * NullPointerException; otherwise the session's open log entry is closed,
   * the session is dropped from every table, and the service connection is
   * updated.
   */
  function RemoveSessionState(us: UserState, token: Token, cx: Context): (r: Result<Step, Exception>)
    ensures r.Failure? <==> token !in us.sessionStateMap
    ensures r.Failure? ==> r.error == NullPointerException
    ensures r.Success? ==>
      var s := us.sessionStateMap[token];
      var dropped := DropSession(us, token);
      && OnlyServiceChanged(dropped, r.value.us, s.inputId)
      && (s.inputId in r.value.us.serviceStateMap ==>
            s.inputId in dropped.serviceStateMap
            && SameBinding(dropped.serviceStateMap[s.inputId], r.value.us.serviceStateMap[s.inputId]))
      && TableEvents(r.value.events)
      && (s.logUri.Some? ==> r.value.events != [] && r.value.events[0] == LogEntryClosed(s.logUri.value))
      && (s.inputId in us.serviceStateMap && us.serviceStateMap[s.inputId].service.None? ==>
            s.inputId in r.value.us.serviceStateMap)
      && (Consistent(us) ==> Consistent(r.value.us))
    ensures r.Success? ==>
      var s := us.sessionStateMap[token];
      var u := UpdateServiceConnection(DropSession(us, token), s.inputId, cx);
      && r.value.us == u.us
      && r.value.events == (if s.logUri.Some? then [LogEntryClosed(s.logUri.value)] else []) + u.events
      && (UnbindRequested(s.inputId) in r.value.events <==> UnbindWanted(DropSession(us, token), s.inputId))
    ensures r.Success? ==> KeepsWatchedServices(us, r.value.us)
  {
    if token !in us.sessionStateMap then Failure(NullPointerException)
    else
      var s := us.sessionStateMap[token];
      var closed := if s.logUri.Some? then [LogEntryClosed(s.logUri.value)] else [];
      var dropped := DropSession(us, token);
      var u := UpdateServiceConnection(dropped, s.inputId, cx);
      assert Consistent(us) ==> Consistent(dropped) by {
        if Consistent(us) { DropSessionConsistent(us, token); }
      }
      assert KeepsWatchedServices(us, u.us) by {
        KeepsWatchedTransitive(us, dropped, u.us);
      }
      assert UnbindRequested(s.inputId) in closed + u.events <==> UnbindRequested(s.inputId) in u.events;
      Success(Step(u.us, closed + u.events))
  }

  /**
   * Every service some client watches keeps its entry, its clients, its
   * backend and its callback.
   */
  ghost predicate KeepsWatchedServices(a: UserState, b: UserState)
  {
    forall id | id in a.serviceStateMap && a.serviceStateMap[id].clientTokens != [] ::
      && id in b.serviceStateMap
      && b.serviceStateMap[id].clientTokens == a.serviceStateMap[id].clientTokens
      && b.serviceStateMap[id].service == a.serviceStateMap[id].service
      && b.serviceStateMap[id].hasCallback == a.serviceStateMap[id].hasCallback
  }

  /** A change confined to one service entry, which keeps that entry's binding while clients watch it. */
  lemma KeepsWatchedAt(a: UserState, b: UserState, inputId: string)
    requires b.serviceStateMap - {inputId} == a.serviceStateMap - {inputId}
    requires inputId in a.serviceStateMap && a.serviceStateMap[inputId].clientTokens != [] ==>
      inputId in b.serviceStateMap && SameBinding(a.serviceStateMap[inputId], b.serviceStateMap[inputId])
    ensures KeepsWatchedServices(a, b)
  {
    forall id | id in a.serviceStateMap && a.serviceStateMap[id].clientTokens != [] && id != inputId
      ensures id in b.serviceStateMap && b.serviceStateMap[id] == a.serviceStateMap[id]
    {
      assert id in (a.serviceStateMap - {inputId});
      assert a.serviceStateMap[id] == (a.serviceStateMap - {inputId})[id];
      assert b.serviceStateMap[id] == (b.serviceStateMap - {inputId})[id];
    }
  }

  lemma KeepsWatchedTransitive(a: UserState, b: UserState, c: UserState)
    requires KeepsWatchedServices(a, b) && KeepsWatchedServices(b, c)
    ensures KeepsWatchedServices(a, c)
  {
  }

  /**
   * Removing a registered session unbinds its service exactly when that was
   * the service's last session, no client watches it and it is connected;
   * the entry is then forgotten.
   */
  lemma RemoveLastSessionUnbinds(us: UserState, token: Token, cx: Context)
    requires Consistent(us) && token in us.sessionStateMap
    ensures var s := us.sessionStateMap[token];
      var r := RemoveSessionState(us, token, cx);
      && s.inputId in us.serviceStateMap
      && var ss := us.serviceStateMap[s.inputId];
      && (UnbindRequested(s.inputId) in r.value.events <==>
            ss.service.Some? && ss.clientTokens == [] && ss.sessionTokens == [token])
      && (s.inputId !in r.value.us.serviceStateMap <==> UnbindRequested(s.inputId) in r.value.events)
  {
    var s := us.sessionStateMap[token];
    assert SessionListed(us, token);
    var ss := us.serviceStateMap[s.inputId];
    var left := RemoveFirst(ss.sessionTokens, token);
    if left == [] {
      assert |ss.sessionTokens| == 1;
      assert ss.sessionTokens == [ss.sessionTokens[0]];
    }
  }

  /**
   * releaseSessionLocked: the lookup's exceptions, else the backend session
   * (if any) is released and the session state removed.
   */
  function ReleaseSessionLocked(users: map<int, UserState>, token: Token, callingUid: int, cx: Context)
    : (r: Result<Step, Exception>)
    ensures GetSessionStateLocked(users, token, callingUid, cx.userId).Failure? ==>
      r == Failure(GetSessionStateLocked(users, token, callingUid, cx.userId).error)
    ensures GetSessionStateLocked(users, token, callingUid, cx.userId).Success? ==>
      var us := users[cx.userId];
      var s := us.sessionStateMap[token];
      && r.Success?
      && r.value.us.sessionStateMap == us.sessionStateMap - {token}
      && r.value.us.clientStateMap == WithoutClientSession(us.clientStateMap, s.client, token)
      && r.value.us.inputMap == us.inputMap && r.value.us.callbackSet == us.callbackSet
      && (s.session.None? ==> TableEvents(r.value.events))
      && (s.session.Some? ==>
            r.value.events != [] && r.value.events[0] == BackendSessionReleased(s.session.value)
            && TableEvents(r.value.events[1..]))
      && (Consistent(us) ==> Consistent(r.value.us))
    ensures GetSessionStateLocked(users, token, callingUid, cx.userId).Success? ==>
      var us := users[cx.userId];
      var s := us.sessionStateMap[token];
      var removed := RemoveSessionState(us, token, cx).value;
      && r.value.us == removed.us
      && r.value.events == (if s.session.Some? then [BackendSessionReleased(s.session.value)] else []) + removed.events
      && (UnbindRequested(s.inputId) in r.value.events <==> UnbindWanted(DropSession(us, token), s.inputId))
      && KeepsWatchedServices(us, r.value.us)
  {
    match GetSessionStateLocked(users, token, callingUid, cx.userId)
    case Failure(e) => Failure(e)
    case Success(s) =>
      var released := if s.session.Some? then [BackendSessionReleased(s.session.value)] else [];
      var removed := RemoveSessionState(users[cx.userId], token, cx);
      assert TableEvents(removed.value.events);
      Success(Step(removed.value.us, released + removed.value.events))
  }

  // ---------------------------------------------------------------------
  // unregisterClientInternalLocked
  // ---------------------------------------------------------------------

  /** The client entry after it stops watching inputId: dropped when nothing is left. */
  function WithoutClientInput(clients: map<Token, ClientState>, c: Token, inputId: string)
    : (r: map<Token, ClientState>)
    ensures r - {c} == clients - {c}
    ensures c in r <==> c in clients && !IsEmpty(clients[c].(inputIds := RemoveFirst(clients[c].inputIds, inputId)))
    ensures c in r ==> r[c] == clients[c].(inputIds := RemoveFirst(clients[c].inputIds, inputId))
  {
    if c !in clients then clients
    else
      var cs := clients[c].(inputIds := RemoveFirst(clients[c].inputIds, inputId));
      if IsEmpty(cs) then clients - {c} else clients[c := cs]
  }

  /**
   * unregisterClientInternalLocked: the client forgets the input and the
   * service forgets the client; when that was the service's last client and
   * the service is connected with a callback, the callback is unregistered
   * and the connection updated.
   */
  function UnregisterClientInternal(us: UserState, client: Token, inputId: string, cx: Context): (r: Step)
    ensures r.us.sessionStateMap == us.sessionStateMap
    ensures r.us.inputMap == us.inputMap && r.us.callbackSet == us.callbackSet
    ensures r.us.clientStateMap == WithoutClientInput(us.clientStateMap, client, inputId)
    ensures r.us.serviceStateMap - {inputId} == us.serviceStateMap - {inputId}
    ensures inputId in r.us.serviceStateMap ==>
      && inputId in us.serviceStateMap
      && var before := us.serviceStateMap[inputId];
      && var after := r.us.serviceStateMap[inputId];
      && after.clientTokens == RemoveFirst(before.clientTokens, client)
      && after.sessionTokens == before.sessionTokens
      && after.service == before.service
    ensures var unregisters :=
        && inputId in us.serviceStateMap
        && RemoveFirst(us.serviceStateMap[inputId].clientTokens, client) == []
        && us.serviceStateMap[inputId].service.Some?
        && us.serviceStateMap[inputId].hasCallback;
      && (unregisters ==> r.events != [] && r.events[0] == BackendCallbackUnregistered(inputId)
                          && TableEvents(r.events[1..]))
      && (!unregisters ==> r.events == [])
      && (unregisters ==>
            && var left := us.serviceStateMap[inputId].sessionTokens;
            && (inputId in r.us.serviceStateMap <==> left != [])
            && (left == [] ==> r.events == [BackendCallbackUnregistered(inputId), UnbindRequested(inputId)])
            && (left != [] ==> r.events == [BackendCallbackUnregistered(inputId)]
                               && !r.us.serviceStateMap[inputId].hasCallback))
    ensures inputId in us.serviceStateMap ==>
      var before := us.serviceStateMap[inputId];
      var left := RemoveFirst(before.clientTokens, client);
      var unregisters := left == [] && before.service.Some? && before.hasCallback;
      && (inputId in r.us.serviceStateMap <==> !(unregisters && before.sessionTokens == []))
      && (inputId in r.us.serviceStateMap ==>
            r.us.serviceStateMap[inputId] == before.(clientTokens := left, hasCallback := before.hasCallback && !unregisters))
      && (UnbindRequested(inputId) in r.events <==> unregisters && before.sessionTokens == [])
    ensures forall id | UnbindRequested(id) in r.events :: id == inputId
    ensures Consistent(us) ==> Consistent(r.us)
  {
    var us2 := ForgetClient(us, client, inputId);
    if inputId !in us2.serviceStateMap then Step(us2, [])
    else
      var ss := us2.serviceStateMap[inputId];
      if ss.clientTokens != [] || ss.service.None? || !ss.hasCallback then Step(us2, [])
      else DropCallback(us2, inputId, cx)
  }

  /**
   * The tail of unregisterClientInternalLocked once the service has no client
   * left but is connected with a callback: the callback is unregistered and the
   * connection updated, which unbinds the service when it has no session either.
   */
  function DropCallback(us: UserState, inputId: string, cx: Context): (r: Step)
    requires inputId in us.serviceStateMap
    requires us.serviceStateMap[inputId].clientTokens == []
    requires us.serviceStateMap[inputId].service.Some? && us.serviceStateMap[inputId].hasCallback
    ensures r.us.sessionStateMap == us.sessionStateMap && r.us.clientStateMap == us.clientStateMap
    ensures r.us.inputMap == us.inputMap && r.us.callbackSet == us.callbackSet
    ensures r.us.serviceStateMap - {inputId} == us.serviceStateMap - {inputId}
    ensures var ss := us.serviceStateMap[inputId];
      && (inputId in r.us.serviceStateMap <==> ss.sessionTokens != [])
      && (inputId in r.us.serviceStateMap ==> r.us.serviceStateMap[inputId] == ss.(hasCallback := false))
      && (ss.sessionTokens == [] ==> r.events == [BackendCallbackUnregistered(inputId), UnbindRequested(inputId)])
      && (ss.sessionTokens != [] ==> r.events == [BackendCallbackUnregistered(inputId)])
    ensures Consistent(us) ==> Consistent(r.us)
  {
    var ss := us.serviceStateMap[inputId];
    var us3 := us.(serviceStateMap := us.serviceStateMap[inputId := ss.(hasCallback := false)]);
    assert us3.serviceStateMap - {inputId} == us.serviceStateMap - {inputId} by {
      UpdateOutside(us.serviceStateMap, inputId, ss.(hasCallback := false));
    }
    assert Consistent(us) ==> Consistent(us3) by {
      if Consistent(us) { BindingConsistent(us, inputId, ss.(hasCallback := false)); }
    }
    var u := UpdateServiceConnection(us3, inputId, cx);
    assert inputId in u.us.serviceStateMap ==> u.us.serviceStateMap[inputId] == ss.(hasCallback := false) by {
      if inputId in u.us.serviceStateMap {
        assert !BindWanted(us3, inputId, cx);
        assert u.us.serviceStateMap[inputId].reconnecting == ss.reconnecting;
      }
    }
    Step(u.us, [BackendCallbackUnregistered(inputId)] + u.events)
  }

  /** The table edits of unregisterClientInternalLocked: the client and the service forget each other. */
  function ForgetClient(us: UserState, client: Token, inputId: string): (r: UserState)
    ensures r.sessionStateMap == us.sessionStateMap
    ensures r.inputMap == us.inputMap && r.callbackSet == us.callbackSet
    ensures r.clientStateMap == WithoutClientInput(us.clientStateMap, client, inputId)
    ensures r.serviceStateMap - {inputId} == us.serviceStateMap - {inputId}
    ensures inputId in r.serviceStateMap <==> inputId in us.serviceStateMap
    ensures inputId in r.serviceStateMap ==>
      r.serviceStateMap[inputId]
      == us.serviceStateMap[inputId].(clientTokens := RemoveFirst(us.serviceStateMap[inputId].clientTokens, client))
    ensures Consistent(us) ==> Consistent(r)
  {
    var us1 := us.(clientStateMap := WithoutClientInput(us.clientStateMap, client, inputId));
    if inputId !in us1.serviceStateMap then
      assert Consistent(us) ==> Consistent(us1) by {
        if Consistent(us) { ClientInputConsistent(us, client, inputId); }
      }
      us1
    else
      var before := us1.serviceStateMap[inputId];
      var ss := before.(clientTokens := RemoveFirst(before.clientTokens, client));
      var r := us1.(serviceStateMap := us1.serviceStateMap[inputId := ss]);
      assert Consistent(us) ==> Consistent(r) by {
        if Consistent(us) { ForgetClientConsistent(us, client, inputId); }
      }
      UpdateOutside(us1.serviceStateMap, inputId, ss);
      r
  }

  /** With the service entry gone, the client may stop watching the input and the tables stay consistent. */
  lemma ClientInputConsistent(us: UserState, client: Token, inputId: string)
    requires Consistent(us) && inputId !in us.serviceStateMap
    ensures Consistent(us.(clientStateMap := WithoutClientInput(us.clientStateMap, client, inputId)))
  {
    var r := us.(clientStateMap := WithoutClientInput(us.clientStateMap, client, inputId));
    forall c | c in r.clientStateMap
      ensures ClientListOk(r, c)
    {
      assert ClientListOk(us, c);
      if c == client {
        assert inputId !in us.clientStateMap[c].inputIds;
      }
    }
    forall id | id in r.serviceStateMap
      ensures ServiceListOk(r, id)
    {
      assert ServiceListOk(us, id);
      forall c | c in us.serviceStateMap[id].clientTokens
        ensures c in r.clientStateMap && id in r.clientStateMap[c].inputIds
      {
        if c == client {
          RemoveFirstKeepsOthers(us.clientStateMap[c].inputIds, inputId, id);
        }
      }
    }
  }

  /** The client and the service forgetting each other keeps the tables consistent. */
  lemma ForgetClientConsistent(us: UserState, client: Token, inputId: string)
    requires Consistent(us) && inputId in us.serviceStateMap
    ensures var before := us.serviceStateMap[inputId];
      Consistent(us.(clientStateMap := WithoutClientInput(us.clientStateMap, client, inputId),
                     serviceStateMap := us.serviceStateMap[inputId := before.(clientTokens := RemoveFirst(before.clientTokens, client))]))
  {
    var before := us.serviceStateMap[inputId];
    var r := us.(clientStateMap := WithoutClientInput(us.clientStateMap, client, inputId),
                 serviceStateMap := us.serviceStateMap[inputId := before.(clientTokens := RemoveFirst(before.clientTokens, client))]);
    forall t | t in r.sessionStateMap
      ensures SessionListed(r, t)
    {
      assert SessionListed(us, t);
    }
    forall c | c in r.clientStateMap
      ensures ClientListOk(r, c)
    {
      assert ClientListOk(us, c);
      var ids := us.clientStateMap[c].inputIds;
      if c == client {
        RemoveFirstKeepsNoDuplicates(ids, inputId);
      }
      forall id | id in r.clientStateMap[c].inputIds
        ensures id in r.serviceStateMap && c in r.serviceStateMap[id].clientTokens
      {
        assert id in ids;
        if id == inputId {
          assert c != client;
          RemoveFirstKeepsOthers(before.clientTokens, client, c);
        }
      }
    }
    forall id | id in r.serviceStateMap
      ensures ServiceListOk(r, id)
    {
      assert ServiceListOk(us, id);
      var tokens := r.serviceStateMap[id].clientTokens;
      if id == inputId {
        RemoveFirstKeepsNoDuplicates(before.clientTokens, client);
      }
      forall c | c in tokens
        ensures c in r.clientStateMap && id in r.clientStateMap[c].inputIds
      {
        assert c in us.serviceStateMap[id].clientTokens;
        if c == client {
          assert id != inputId;
          RemoveFirstKeepsOthers(us.clientStateMap[c].inputIds, inputId, id);
        }
      }
    }
  }

  lemma UpdateOutside<K, V>(m: map<K, V>, k: K, v: V)
    ensures m[k := v] - {k} == m - {k}
  {
  }

  lemma RemoveTwice<K, V>(m: map<K, V>, k: K)
    ensures (m - {k}) - {k} == m - {k}
  {
  }

  /** A service entry with no sessions may be forgotten. */
  lemma UnbindConsistent(us: UserState, inputId: string)
    requires Consistent(us) && inputId in us.serviceStateMap
    requires us.serviceStateMap[inputId].sessionTokens == [] && us.serviceStateMap[inputId].clientTokens == []
    ensures Consistent(us.(serviceStateMap := us.serviceStateMap - {inputId}))
  {
    var r := us.(serviceStateMap := us.serviceStateMap - {inputId});
    forall t | t in r.sessionStateMap
      ensures SessionListed(r, t)
    {
      assert SessionListed(us, t);
    }
    forall id | id in r.serviceStateMap
      ensures ServiceListOk(r, id)
    {
      assert ServiceListOk(us, id);
    }
    forall c | c in r.clientStateMap
      ensures ClientListOk(r, c)
    {
      assert ClientListOk(us, c);
    }
  }

  /** A service entry may change everything but its token lists and stay consistent. */
  lemma BindingConsistent(us: UserState, inputId: string, ss: ServiceState)
    requires Consistent(us) && inputId in us.serviceStateMap
    requires ss.sessionTokens == us.serviceStateMap[inputId].sessionTokens
    requires ss.clientTokens == us.serviceStateMap[inputId].clientTokens
    requires ss.hasCallback ==> ss.service.Some?
    ensures Consistent(us.(serviceStateMap := us.serviceStateMap[inputId := ss]))
  {
    var r := us.(serviceStateMap := us.serviceStateMap[inputId := ss]);
    forall t | t in r.sessionStateMap
      ensures SessionListed(r, t)
    {
      assert SessionListed(us, t);
    }
    forall id | id in r.serviceStateMap
      ensures ServiceListOk(r, id)
    {
      assert ServiceListOk(us, id);
    }
    forall c | c in r.clientStateMap
      ensures ClientListOk(r, c)
    {
      assert ClientListOk(us, c);
    }
  }

  // ---------------------------------------------------------------------
  // The backend's onSessionCreated callback
  // ---------------------------------------------------------------------

  lemma AppendKeepsNoDuplicates<T>(s: seq<T>, x: T)
    requires NoDuplicates(s) && x !in s
    ensures NoDuplicates(s + [x])
  {
    InsertKeepsNoDuplicates(s, |s|, x);
    assert s[..|s|] + [x] + s[|s|..] == s + [x];
  }

  /**
   * The session callback's onSessionCreated as written: it records the
   * backend session on the session state it captured; a null session removes
   * the session state and answers the client with a null token, any other
   * adds the token to the client's list (creating the client entry) and
   * answers with the token. It checks neither that the session is still in
   * the tables nor that the client already lists the token.
   */
  function SessionCreatedAsWritten(us: UserState, token: Token, captured: SessionState,
                                   session: Option<Token>, cx: Context): (r: Result<Step, Exception>)
    ensures token in us.sessionStateMap
            && !(us.sessionStateMap[token].client in us.clientStateMap
                 && token in us.clientStateMap[us.sessionStateMap[token].client].sessionTokens) ==>
      r == Success(SessionCreated(us, token, session, cx))
  {
    var s := if token in us.sessionStateMap then us.sessionStateMap[token] else captured;
    var us0 := if token in us.sessionStateMap
      then us.(sessionStateMap := us.sessionStateMap[token := s.(session := session)])
      else us;
    if session.None? then
      assert token in us.sessionStateMap ==> DropSession(us0, token) == DropSession(us, token) by {
        if token in us.sessionStateMap { UpdateOutside(us.sessionStateMap, token, s.(session := session)); }
      }
      match RemoveSessionState(us0, token, cx)
      case Failure(e) => Failure(e)
      case Success(st) => Success(Step(st.us, st.events + [SessionTokenSent(s.client, s.inputId, None, s.seqNum)]))
    else
      var cs := if s.client in us0.clientStateMap then us0.clientStateMap[s.client] else ClientState([], []);
      Success(Step(us0.(clientStateMap := us0.clientStateMap[s.client := cs.(sessionTokens := cs.sessionTokens + [token])]),
                   [SessionTokenSent(s.client, s.inputId, Some(token), s.seqNum)]))
  }

  /** The client's session list after it is handed `token`: the token is added unless it is already there. */
  function WithClientSession(clients: map<Token, ClientState>, c: Token, token: Token): (r: map<Token, ClientState>)
    ensures r - {c} == clients - {c}
    ensures c in r && token in r[c].sessionTokens
    ensures c in clients ==> r[c].inputIds == clients[c].inputIds
    ensures c !in clients ==> r[c].inputIds == []
    ensures forall t | t in r[c].sessionTokens ::
      t == token || (c in clients && t in clients[c].sessionTokens)
    ensures c in clients && NoDuplicates(clients[c].sessionTokens) ==> NoDuplicates(r[c].sessionTokens)
  {
    var cs := if c in clients then clients[c] else ClientState([], []);
    if token in cs.sessionTokens then
      clients[c := cs]
    else
      clients[c := cs.(sessionTokens := cs.sessionTokens + [token])]
  }

  /**
   * onSessionCreated for a session that is still registered: a null session
   * is removed and answered with a null token; otherwise the backend session
   * is recorded, the client lists the token once, and the client receives
   * it. An answer for a session that is gone changes nothing.
   */
  function SessionCreated(us: UserState, token: Token, session: Option<Token>, cx: Context): (r: Step)
    ensures token !in us.sessionStateMap ==> r == Step(us, [])
    ensures token in us.sessionStateMap ==>
      var s := us.sessionStateMap[token];
      && (session.None? ==>
            && r.us.sessionStateMap == us.sessionStateMap - {token}
            && r.us == RemoveSessionState(us, token, cx).value.us
            && r.events == RemoveSessionState(us, token, cx).value.events
                           + [SessionTokenSent(s.client, s.inputId, None, s.seqNum)])
      && (session.Some? ==>
            && r.us.sessionStateMap == us.sessionStateMap[token := s.(session := session)]
            && r.us.clientStateMap == WithClientSession(us.clientStateMap, s.client, token)
            && r.us.serviceStateMap == us.serviceStateMap
            && r.events == [SessionTokenSent(s.client, s.inputId, Some(token), s.seqNum)])
    ensures Consistent(us) ==> Consistent(r.us)
    ensures Consistent(us) && token in us.sessionStateMap && session.Some? ==>
      var c := us.sessionStateMap[token].client;
      c in r.us.clientStateMap && NoDuplicates(r.us.clientStateMap[c].sessionTokens)
      && token in r.us.clientStateMap[c].sessionTokens
  {
    if token !in us.sessionStateMap then Step(us, [])
    else
      var s := us.sessionStateMap[token];
      if session.None? then
        var st := RemoveSessionState(us, token, cx).value;
        Step(st.us, st.events + [SessionTokenSent(s.client, s.inputId, None, s.seqNum)])
      else
        var r := us.(sessionStateMap := us.sessionStateMap[token := s.(session := session)],
                     clientStateMap := WithClientSession(us.clientStateMap, s.client, token));
        assert Consistent(us) ==> Consistent(r) by {
          if Consistent(us) { CreatedConsistent(us, token, session); }
        }
        Step(r, [SessionTokenSent(s.client, s.inputId, Some(token), s.seqNum)])
  }

  lemma CreatedConsistent(us: UserState, token: Token, session: Option<Token>)
    requires Consistent(us) && token in us.sessionStateMap && session.Some?
    ensures var s := us.sessionStateMap[token];
      Consistent(us.(sessionStateMap := us.sessionStateMap[token := s.(session := session)],
                     clientStateMap := WithClientSession(us.clientStateMap, s.client, token)))
  {
    var s := us.sessionStateMap[token];
    var r := us.(sessionStateMap := us.sessionStateMap[token := s.(session := session)],
                 clientStateMap := WithClientSession(us.clientStateMap, s.client, token));
    forall t | t in r.sessionStateMap
      ensures SessionListed(r, t)
    {
      assert SessionListed(us, t);
    }
    forall id | id in r.serviceStateMap
      ensures ServiceListOk(r, id)
    {
      assert ServiceListOk(us, id);
    }
    forall c | c in r.clientStateMap
      ensures ClientListOk(r, c)
    {
      if c in us.clientStateMap {
        assert ClientListOk(us, c);
      }
    }
  }

  /**
   * A late onSessionCreated for a session the service already removed (its
   * service disconnected before the backend answered) hands the client a
   * token the tables no longer know and leaves it in the client's list; a
   * late null answer throws NullPointerException.
   */
  lemma LateSessionCreatedCorruptsClientTable()
    ensures var us := UserState(map["input" := INPUT_STATE_CONNECTED], map[],
                                map["input" := ServiceState([], [], None, false, false, true)], map[], {});
      var captured := SessionState("input", 5, 1, 10010, USER_OWNER, None, None);
      var cx := Context(USER_OWNER, USER_OWNER, true);
      var r := SessionCreatedAsWritten(us, 3, captured, Some(9), cx);
      && Consistent(us)
      && r.Success? && r.value.events == [SessionTokenSent(5, "input", Some(3), 1)]
      && 3 !in r.value.us.sessionStateMap
      && 5 in r.value.us.clientStateMap && 3 in r.value.us.clientStateMap[5].sessionTokens
      && !Consistent(r.value.us)
      && SessionCreatedAsWritten(us, 3, captured, None, cx) == Failure(NullPointerException)
  {
    var us := UserState(map["input" := INPUT_STATE_CONNECTED], map[],
                        map["input" := ServiceState([], [], None, false, false, true)], map[], {});
    var captured := SessionState("input", 5, 1, 10010, USER_OWNER, None, None);
    var r := SessionCreatedAsWritten(us, 3, captured, Some(9), Context(USER_OWNER, USER_OWNER, true));
    assert r.value.us.clientStateMap[5].sessionTokens == [3];
    assert !ClientListOk(r.value.us, 5);
  }

  /**
   * A session whose backend was created before its service restarted is
   * requested again by onServiceConnected; the second answer appends the
   * token to the client's list a second time. Releasing the session then
   * leaves the token in the client's list, and the release the client's
   * death performs for it throws IllegalArgumentException.
   */
  lemma RecreatedSessionListedTwice()
    ensures var us := UserState(map["input" := INPUT_STATE_CONNECTED], map[5 := ClientState([], [3])],
                                map["input" := ServiceState([], [3], Some(7), false, true, false)],
                                map[3 := SessionState("input", 5, 1, 10010, USER_OWNER, Some(8), None)], {});
      var cx := Context(USER_OWNER, USER_OWNER, true);
      var r := SessionCreatedAsWritten(us, 3, us.sessionStateMap[3], Some(11), cx);
      && Consistent(us)
      && r.Success? && r.value.us.clientStateMap[5].sessionTokens == [3, 3]
      && !Consistent(r.value.us)
      && var released := ReleaseSessionLocked(map[USER_OWNER := r.value.us], 3, SYSTEM_UID, cx);
      && released.Success?
      && released.value.us.clientStateMap[5].sessionTokens == [3]
      && ReleaseSessionLocked(map[USER_OWNER := released.value.us], 3, SYSTEM_UID, cx) == Failure(IllegalArgumentException)
      && SessionCreated(us, 3, Some(11), cx).us.clientStateMap[5].sessionTokens == [3]
  {
    var us := UserState(map["input" := INPUT_STATE_CONNECTED], map[5 := ClientState([], [3])],
                        map["input" := ServiceState([], [3], Some(7), false, true, false)],
                        map[3 := SessionState("input", 5, 1, 10010, USER_OWNER, Some(8), None)], {});
    var cx := Context(USER_OWNER, USER_OWNER, true);
    assert Consistent(us) by {
      assert ClientListOk(us, 5) && ServiceListOk(us, "input") && SessionListed(us, 3);
    }
    var r := SessionCreatedAsWritten(us, 3, us.sessionStateMap[3], Some(11), cx);
    assert r.Success? && r.value.us.clientStateMap[5].sessionTokens == [3, 3] && !Consistent(r.value.us) by {
      assert r.value.us.clientStateMap[5].sessionTokens == [3] + [3];
      var twice := r.value.us.clientStateMap[5].sessionTokens;
      assert twice[0] == twice[1];
      assert !ClientListOk(r.value.us, 5);
    }
    var released := ReleaseSessionLocked(map[USER_OWNER := r.value.us], 3, SYSTEM_UID, cx);
    assert released.Success? && released.value.us.clientStateMap[5].sessionTokens == [3] by {
      assert RemoveFirst([3, 3], 3) == [3];
    }
  }

  // ---------------------------------------------------------------------
  // SessionState.binderDied
  // ---------------------------------------------------------------------

  /**
   * SessionState.binderDied as written: the client is told its session was
   * released, then the session state is removed. Nothing unlinks the death
   * recipient when a session is released, so the backend can die after its
   * session was removed, and the removal then throws NullPointerException.
   */
  function SessionBinderDiedAsWritten(us: UserState, token: Token, captured: SessionState, cx: Context)
    : (r: (Step, Outcome))
    ensures token in us.sessionStateMap && captured == us.sessionStateMap[token] ==>
      r == (SessionBinderDied(us, token, cx), Done)
    ensures token !in us.sessionStateMap ==>
      r == (Step(us, [SessionReleasedSent(captured.client, captured.seqNum)]), Thrown(NullPointerException))
  {
    var notified := [SessionReleasedSent(captured.client, captured.seqNum)];
    match RemoveSessionState(us, token, cx)
    case Failure(e) => (Step(us, notified), Thrown(e))
    case Success(st) => (Step(st.us, notified + st.events), Done)
  }

  /** A released session whose backend dies afterwards makes the death handler throw. */
  lemma DeathAfterReleaseThrows(users: map<int, UserState>, token: Token, callingUid: int, cx: Context,
                                captured: SessionState)
    requires ReleaseSessionLocked(users, token, callingUid, cx).Success?
    ensures SessionBinderDiedAsWritten(ReleaseSessionLocked(users, token, callingUid, cx).value.us, token, captured, cx).1
      == Thrown(NullPointerException)
  {
  }

  /**
   * SessionState.binderDied for a session that is still registered: the
   * client is told it was released and the session state is removed; a
   * death reported for a session already removed changes nothing.
   */
  function SessionBinderDied(us: UserState, token: Token, cx: Context): (r: Step)
    ensures token !in us.sessionStateMap ==> r == Step(us, [])
    ensures token in us.sessionStateMap ==>
      var s := us.sessionStateMap[token];
      && r.us.sessionStateMap == us.sessionStateMap - {token}
      && r.us == RemoveSessionState(us, token, cx).value.us
      && r.events == [SessionReleasedSent(s.client, s.seqNum)] + RemoveSessionState(us, token, cx).value.events
    ensures Consistent(us) ==> Consistent(r.us)
  {
    if token !in us.sessionStateMap then Step(us, [])
    else
      var s := us.sessionStateMap[token];
      var st := RemoveSessionState(us, token, cx).value;
      Step(st.us, [SessionReleasedSent(s.client, s.seqNum)] + st.events)
  }

  /**
   * A session the backend answered with null, and a session whose binder
   * died, leave the tables as removeSessionStateLocked does: the service is
   * unbound and forgotten exactly when that was its last session, no client
   * watches it and it is connected.
   */
  lemma SessionGoneUnbinds(us: UserState, token: Token, cx: Context)
    requires Consistent(us) && token in us.sessionStateMap
    ensures var inp := us.sessionStateMap[token].inputId;
      && inp in us.serviceStateMap
      && var ss := us.serviceStateMap[inp];
      && var last := ss.service.Some? && ss.clientTokens == [] && ss.sessionTokens == [token];
      && var created := SessionCreated(us, token, None, cx);
      && var died := SessionBinderDied(us, token, cx);
      && (UnbindRequested(inp) in created.events <==> last)
      && (inp !in created.us.serviceStateMap <==> last)
      && (UnbindRequested(inp) in died.events <==> last)
      && (inp !in died.us.serviceStateMap <==> last)
  {
    var s := us.sessionStateMap[token];
    var removed := RemoveSessionState(us, token, cx).value;
    RemoveLastSessionUnbinds(us, token, cx);
    var answer := [SessionTokenSent(s.client, s.inputId, None, s.seqNum)];
    var told := [SessionReleasedSent(s.client, s.seqNum)];
    assert UnbindRequested(s.inputId) in removed.events + answer <==> UnbindRequested(s.inputId) in removed.events;
    assert UnbindRequested(s.inputId) in told + removed.events <==> UnbindRequested(s.inputId) in removed.events;
  }

  // ---------------------------------------------------------------------
  // The session loop of onServiceDisconnected
  // ---------------------------------------------------------------------

  /**
   * The ArrayList iterators the for-each may run on. OpenJDK's has a next
   * element while its cursor differs from the list's current size; Android
   * libcore's counts down the elements left from the size the list had when
   * the iteration began. Both throw ConcurrentModificationException from
   * next() once the list was changed behind them.
   */
  datatype ListIterator = OpenJdkIterator | LibcoreIterator

  /**
   * The for-each loop of onServiceDisconnected as written: an ArrayList
   * iterator walks the service's live token list, which had `size0` elements
   * when the loop began, while the pending tokens are removed from that same
   * list. Returns the tokens visited and how the loop ends.
   */
  function VisitLiveAsWritten(iter: ListIterator, live: seq<Token>, size0: nat, cursor: nat, modified: bool,
                              pending: set<Token>): (r: (seq<Token>, Outcome))
    requires cursor <= size0
    requires !modified ==> cursor <= |live| == size0
    ensures !modified && (forall t | t in live :: t !in pending) ==> r == (live[cursor..], Done)
    decreases if modified then 0 else |live| - cursor + 1
  {
    var hasNext := if iter == OpenJdkIterator then cursor != |live| else cursor != size0;
    if !hasNext then
      assert !modified ==> live[cursor..] == [];
      ([], Done)
    else if modified then ([], Thrown(ConcurrentModificationException))
    else
      var t := live[cursor];
      assert live[cursor..] == [t] + live[cursor + 1..];
      var rest :=
        if t in pending then VisitLiveAsWritten(iter, RemoveFirst(live, t), size0, cursor + 1, true, pending)
        else VisitLiveAsWritten(iter, live, size0, cursor + 1, false, pending);
      ([t] + rest.0, rest.1)
  }

  /**
   * Two sessions still waiting for their backend: on either iterator the
   * second is never visited, so never answered; OpenJDK's iterator then
   * ends the loop, libcore's throws.
   */
  lemma DisconnectSkipsSecondPending(iter: ListIterator)
    ensures var r := VisitLiveAsWritten(iter, [1, 2], 2, 0, false, {1, 2});
      && r.0 == [1]
      && r.1 == (if iter == OpenJdkIterator then Done else Thrown(ConcurrentModificationException))
  {
    var live: seq<Token> := [1, 2];
    assert live[0] == 1 && 1 in {1, 2};
    assert RemoveFirst(live, 1) == [2];
    var rest := VisitLiveAsWritten(iter, [2], 2, 1, true, {1, 2});
    assert VisitLiveAsWritten(iter, live, 2, 0, false, {1, 2}) == ([1] + rest.0, rest.1);
    assert [1] + rest.0 == [1];
  }

  /**
   * A single waiting session: the outcome depends on the iterator. OpenJDK's
   * sees its cursor past the shortened list and throws; libcore's has no
   * element left and ends.
   */
  lemma DisconnectSinglePendingDependsOnIterator(iter: ListIterator)
    ensures var r := VisitLiveAsWritten(iter, [1], 1, 0, false, {1});
      && r.0 == [1]
      && r.1 == (if iter == OpenJdkIterator then Thrown(ConcurrentModificationException) else Done)
  {
    var live: seq<Token> := [1];
    assert live[0] == 1;
    assert RemoveFirst(live, 1) == [];
    var rest := VisitLiveAsWritten(iter, [], 1, 1, true, {1});
    assert VisitLiveAsWritten(iter, live, 1, 0, false, {1}) == ([1] + rest.0, rest.1);
  }

  /** A waiting session followed by two more: on either iterator the loop throws instead of finishing. */
  lemma DisconnectThrowsWithTwoAfterPending(iter: ListIterator)
    ensures VisitLiveAsWritten(iter, [1, 2, 3], 3, 0, false, {1}).1 == Thrown(ConcurrentModificationException)
  {
    assert RemoveFirst([1, 2, 3], 1) == [2, 3];
  }

  // ---------------------------------------------------------------------
  // createSession
  // ---------------------------------------------------------------------

  /** The service of inputId is reconnecting: createSession answers at once with a null token. */
  predicate Reconnecting(us: UserState, inputId: string)
  {
    inputId in us.serviceStateMap && us.serviceStateMap[inputId].reconnecting
  }

  /**
   * The locked part of createSession with a fresh token: an input with
   * neither a service state nor an entry in the input map throws
   * NullPointerException; a reconnecting service gets a null token sent to
   * the client; otherwise the session is registered with its service and
   * either requested from the connected backend or left to the binding.
   */
  function CreateSessionLocked(us: UserState, client: Token, inputId: string, seqNum: int,
                               callingUid: int, token: Token, cx: Context): (r: Result<Step, Exception>)
    requires token !in us.sessionStateMap
    ensures r.Failure? <==> inputId !in us.serviceStateMap && inputId !in us.inputMap
    ensures r.Failure? ==> r.error == NullPointerException
    ensures Reconnecting(us, inputId) ==>
      r == Success(Step(us, [SessionTokenSent(client, inputId, None, seqNum)]))
    ensures r.Success? && !Reconnecting(us, inputId) ==>
      && r.value.us.sessionStateMap
         == us.sessionStateMap[token := SessionState(inputId, client, seqNum, callingUid, cx.userId, None, None)]
      && r.value.us.clientStateMap == us.clientStateMap
      && r.value.us.inputMap == us.inputMap && r.value.us.callbackSet == us.callbackSet
      && r.value.us.serviceStateMap - {inputId} == us.serviceStateMap - {inputId}
      && inputId in r.value.us.serviceStateMap && token in r.value.us.serviceStateMap[inputId].sessionTokens
      && (inputId in us.serviceStateMap && us.serviceStateMap[inputId].service.Some? ==>
            r.value.events == [BackendSessionRequested(inputId, token)])
      && (!(inputId in us.serviceStateMap && us.serviceStateMap[inputId].service.Some?) ==>
            r.value.events == [] || r.value.events == [BindRequested(inputId, cx.userId)])
    ensures r.Success? && Consistent(us) ==> Consistent(r.value.us)
  {
    if inputId !in us.serviceStateMap && inputId !in us.inputMap then Failure(NullPointerException)
    else
      var ss := if inputId in us.serviceStateMap then us.serviceStateMap[inputId] else NewServiceState;
      if ss.reconnecting then Success(Step(us, [SessionTokenSent(client, inputId, None, seqNum)]))
      else
        var s := SessionState(inputId, client, seqNum, callingUid, cx.userId, None, None);
        var ss1 := ss.(sessionTokens := ss.sessionTokens + [token]);
        var us1 := us.(sessionStateMap := us.sessionStateMap[token := s],
                       serviceStateMap := us.serviceStateMap[inputId := ss1]);
        assert us1.serviceStateMap - {inputId} == us.serviceStateMap - {inputId} by {
          UpdateOutside(us.serviceStateMap, inputId, ss1);
        }
        assert Consistent(us) ==> Consistent(us1) by {
          if Consistent(us) { PendingSessionConsistent(us, inputId, token, s, ss); }
        }
        if ss.service.Some? then Success(Step(us1, [BackendSessionRequested(inputId, token)]))
        else
          var u := UpdateServiceConnection(us1, inputId, cx);
          assert inputId in u.us.serviceStateMap;
          Success(u)
  }

  /** A new session waiting for its backend, listed by its service, keeps the tables consistent. */
  lemma PendingSessionConsistent(us: UserState, inputId: string, token: Token, s: SessionState, ss: ServiceState)
    requires Consistent(us) && token !in us.sessionStateMap
    requires inputId in us.serviceStateMap || inputId in us.inputMap
    requires inputId in us.serviceStateMap ==> ss == us.serviceStateMap[inputId]
    requires inputId !in us.serviceStateMap ==> ss == NewServiceState
    requires s.inputId == inputId
    ensures Consistent(us.(sessionStateMap := us.sessionStateMap[token := s],
                           serviceStateMap := us.serviceStateMap[inputId := ss.(sessionTokens := ss.sessionTokens + [token])]))
  {
    var ss1 := ss.(sessionTokens := ss.sessionTokens + [token]);
    var r := us.(sessionStateMap := us.sessionStateMap[token := s],
                 serviceStateMap := us.serviceStateMap[inputId := ss1]);
    forall t | t in r.sessionStateMap
      ensures SessionListed(r, t)
    {
      if t != token { assert SessionListed(us, t); }
    }
    forall id | id in r.serviceStateMap
      ensures ServiceListOk(r, id)
    {
      if id == inputId {
        if inputId in us.serviceStateMap {
          assert ServiceListOk(us, id);
        }
        assert token !in ss.sessionTokens;
        AppendKeepsNoDuplicates(ss.sessionTokens, token);
      } else {
        assert ServiceListOk(us, id);
      }
    }
    forall c | c in r.clientStateMap
      ensures ClientListOk(r, c)
    {
      assert ClientListOk(us, c);
    }
  }

  /**
   * A session entry rewritten with the same input, client and backend
   * session keeps the tables consistent.
   */
  lemma SessionFieldsConsistent(us: UserState, token: Token, s: SessionState)
    requires Consistent(us) && token in us.sessionStateMap
    requires s.inputId == us.sessionStateMap[token].inputId && s.client == us.sessionStateMap[token].client
    requires s.session == us.sessionStateMap[token].session
    ensures Consistent(us.(sessionStateMap := us.sessionStateMap[token := s]))
  {
    var r := us.(sessionStateMap := us.sessionStateMap[token := s]);
    forall t | t in r.sessionStateMap
      ensures SessionListed(r, t)
    {
      assert SessionListed(us, t);
    }
    forall id | id in r.serviceStateMap
      ensures ServiceListOk(r, id)
    {
      assert ServiceListOk(us, id);
    }
    forall c | c in r.clientStateMap
      ensures ClientListOk(r, c)
    {
      assert ClientListOk(us, c);
    }
  }

  // ---------------------------------------------------------------------
  // The service object
  // ---------------------------------------------------------------------

  /** Every session of user u carries u, and every token was handed out before next. */
  ghost predicate Owned(us: UserState, u: int, next: Token)
  {
    forall t | t in us.sessionStateMap :: t < next && us.sessionStateMap[t].userId == u
  }

  /** Every user's tables are consistent and own their sessions. */
  ghost predicate AllValid(users: map<int, UserState>, next: Token)
  {
    forall u | u in users :: Consistent(users[u]) && Owned(users[u], u, next)
  }

  lemma UpdateUserValid(users: map<int, UserState>, next: Token, u: int, us: UserState)
    requires AllValid(users, next) && Consistent(us) && Owned(us, u, next)
    ensures AllValid(users[u := us], next)
  {
  }

  lemma RemoveUserValid(users: map<int, UserState>, next: Token, u: int)
    requires AllValid(users, next)
    ensures AllValid(users - {u}, next)
  {
  }

  /** The session tokens client lists, none when it has no entry. */
  ghost function ClientSessions(us: UserState, client: Token): set<Token>
  {
    if client in us.clientStateMap then set t | t in us.clientStateMap[client].sessionTokens else {}
  }

  /** Taking one more key out of the keys still listed extends the removed part by it. */
  lemma RemoveOneMore<K, V>(m0: map<K, V>, mine: set<K>, cur: set<K>, k: K)
    requires k in cur && cur <= mine
    ensures (m0 - (mine - cur)) - {k} == m0 - (mine - (cur - {k}))
  {
    var a := (m0 - (mine - cur)) - {k};
    var b := m0 - (mine - (cur - {k}));
    assert a.Keys == b.Keys;
    forall x | x in a.Keys
      ensures a[x] == b[x]
    {
    }
  }

  /** Removing sessions keeps the rest owned. */
  lemma OwnedAfterRemoval(a: UserState, b: UserState, u: int, next: Token, gone: set<Token>)
    requires Owned(a, u, next) && b.sessionStateMap == a.sessionStateMap - gone
    ensures Owned(b, u, next)
  {
  }

  /**
   * One round of the first loop of ClientState.binderDied: releasing the
   * client's first session as the system succeeds, removes exactly that
   * session, and shortens the client's list by it.
   */
  lemma ReleaseFirstSession(us: UserState, client: Token, cx: Context)
    requires Consistent(us) && client in us.clientStateMap && us.clientStateMap[client].sessionTokens != []
    ensures var tokens := us.clientStateMap[client].sessionTokens;
      var r := ReleaseSessionLocked(map[cx.userId := us], tokens[0], SYSTEM_UID, cx);
      && r.Success?
      && Consistent(r.value.us)
      && r.value.us.sessionStateMap == us.sessionStateMap - {tokens[0]}
      && r.value.us.inputMap == us.inputMap && r.value.us.callbackSet == us.callbackSet
      && ClientSessions(r.value.us, client) == ClientSessions(us, client) - {tokens[0]}
      && tokens[0] in ClientSessions(us, client)
      && (client in r.value.us.clientStateMap ==>
            |r.value.us.clientStateMap[client].sessionTokens| < |tokens|)
  {
    var tokens := us.clientStateMap[client].sessionTokens;
    var token := tokens[0];
    assert ClientListOk(us, client);
    var r := ReleaseSessionLocked(map[cx.userId := us], token, SYSTEM_UID, cx);
    assert RemoveFirst(tokens, token) == tokens[1..];
    assert tokens == [token] + tokens[1..];
  }

  /**
   * Releasing the sessions in gone unbinds and forgets a service exactly
   * when it is connected, no client watches it, and gone holds every
   * session it listed.
   */
  ghost predicate ReleaseUnbinds(ss: ServiceState, gone: set<Token>)
  {
    ss.service.Some? && ss.clientTokens == [] && ss.sessionTokens != [] && Without(ss.sessionTokens, gone) == []
  }

  /** A service entry once the sessions in gone were removed: the same clients, backend and callback, and its other sessions. */
  ghost predicate SessionsLeft(before: ServiceState, after: ServiceState, gone: set<Token>)
  {
    && after.clientTokens == before.clientTokens
    && after.sessionTokens == Without(before.sessionTokens, gone)
    && after.service == before.service
    && after.hasCallback == before.hasCallback
  }

  /**
   * The service table and the unbind requests once the sessions in gone
   * were released one by one: a service is forgotten, with an unbind
   * request, exactly when ReleaseUnbinds; a kept entry has lost just those
   * sessions; an entry that listed none of them is as it was.
   */
  ghost predicate ReleasedServices(us: UserState, gone: set<Token>, cur: UserState, evs: seq<ServerEvent>)
  {
    && cur.serviceStateMap.Keys <= us.serviceStateMap.Keys
    && (forall id | UnbindRequested(id) in evs :: id in us.serviceStateMap)
    && (forall id | id in us.serviceStateMap ::
          && (id !in cur.serviceStateMap <==> ReleaseUnbinds(us.serviceStateMap[id], gone))
          && (UnbindRequested(id) in evs <==> ReleaseUnbinds(us.serviceStateMap[id], gone)))
    && (forall id | id in cur.serviceStateMap :: SessionsLeft(us.serviceStateMap[id], cur.serviceStateMap[id], gone))
    && (forall id | id in us.serviceStateMap && Without(us.serviceStateMap[id].sessionTokens, gone) == us.serviceStateMap[id].sessionTokens ::
          id in cur.serviceStateMap && cur.serviceStateMap[id] == us.serviceStateMap[id])
  }

  /** Before any release, nothing is forgotten and nothing changed. */
  lemma ReleasedNothing(us: UserState)
    ensures ReleasedServices(us, {}, us, [])
  {
    forall id | id in us.serviceStateMap
      ensures !ReleaseUnbinds(us.serviceStateMap[id], {})
      ensures SessionsLeft(us.serviceStateMap[id], us.serviceStateMap[id], {})
    {
      WithoutNothing(us.serviceStateMap[id].sessionTokens);
    }
  }

  /** The unbind requests removeSessionStateLocked makes are for the session's own service. */
  lemma RemovalUnbindsOwnService(us: UserState, token: Token, cx: Context)
    requires token in us.sessionStateMap
    ensures forall id | UnbindRequested(id) in RemoveSessionState(us, token, cx).value.events ::
      id == us.sessionStateMap[token].inputId
  {
    var s := us.sessionStateMap[token];
    var closed := if s.logUri.Some? then [LogEntryClosed(s.logUri.value)] else [];
    var u := UpdateServiceConnection(DropSession(us, token), s.inputId, cx);
    assert forall e | e in closed + u.events :: e in closed || e in u.events;
  }

  /** What one release of the first loop does to the released session's own service. */
  lemma ReleaseOwnService(us: UserState, gone: set<Token>, cur: UserState, token: Token, cx: Context)
    requires Consistent(us) && Consistent(cur)
    requires forall id | id in cur.serviceStateMap ::
      id in us.serviceStateMap && SessionsLeft(us.serviceStateMap[id], cur.serviceStateMap[id], gone)
    requires token in cur.sessionStateMap && token in us.sessionStateMap && token !in gone
    requires cur.sessionStateMap[token] == us.sessionStateMap[token]
    ensures var inp := us.sessionStateMap[token].inputId;
      var ss0 := us.serviceStateMap[inp];
      var removed := RemoveSessionState(cur, token, cx).value;
      && inp in us.serviceStateMap && inp in cur.serviceStateMap
      && token in ss0.sessionTokens && !ReleaseUnbinds(ss0, gone)
      && Without(ss0.sessionTokens, gone + {token}) != ss0.sessionTokens
      && (UnbindRequested(inp) in removed.events <==> ReleaseUnbinds(ss0, gone + {token}))
      && (inp in removed.us.serviceStateMap <==> !ReleaseUnbinds(ss0, gone + {token}))
      && (inp in removed.us.serviceStateMap ==>
            SessionsLeft(ss0, removed.us.serviceStateMap[inp], gone + {token}))
      && (forall id | UnbindRequested(id) in removed.events :: id == inp)
      && removed.us.serviceStateMap - {inp} == cur.serviceStateMap - {inp}
  {
    var inp := us.sessionStateMap[token].inputId;
    assert SessionListed(cur, token) && SessionListed(us, token);
    assert ServiceListOk(us, inp);
    var ss0 := us.serviceStateMap[inp];
    var w := Without(ss0.sessionTokens, gone);
    assert cur.serviceStateMap[inp].sessionTokens == w;
    RemoveLastSessionUnbinds(cur, token, cx);
    RemovalUnbindsOwnService(cur, token, cx);
    RemoveFirstWithout(ss0.sessionTokens, gone, token);
    RemoveFirstEmpty(w, token);
    assert token !in Without(ss0.sessionTokens, gone + {token});
  }

  /** One release of the first loop of ClientState.binderDied extends ReleasedServices by its token. */
  lemma ReleaseStepServices(us: UserState, gone: set<Token>, cur: UserState, evs: seq<ServerEvent>,
                            token: Token, cx: Context, extra: seq<ServerEvent>)
    requires Consistent(us) && Consistent(cur) && ReleasedServices(us, gone, cur, evs)
    requires token in cur.sessionStateMap && token in us.sessionStateMap && token !in gone
    requires cur.sessionStateMap[token] == us.sessionStateMap[token]
    requires forall e | e in extra :: !e.UnbindRequested?
    ensures var removed := RemoveSessionState(cur, token, cx).value;
      ReleasedServices(us, gone + {token}, removed.us, evs + (extra + removed.events))
  {
    var removed := RemoveSessionState(cur, token, cx).value;
    ReleaseOwnService(us, gone, cur, token, cx);
    ReleaseStepTables(us, gone, cur, evs, token, us.sessionStateMap[token].inputId, removed.us, extra + removed.events);
  }

  /** ReleaseStepServices over any tables and events that change the token's service as one release does. */
  lemma ReleaseStepTables(us: UserState, gone: set<Token>, cur: UserState, evs: seq<ServerEvent>,
                          token: Token, inp: string, after: UserState, added: seq<ServerEvent>)
    requires Consistent(us) && ReleasedServices(us, gone, cur, evs)
    requires token in us.sessionStateMap && us.sessionStateMap[token].inputId == inp
    requires inp in us.serviceStateMap && inp in cur.serviceStateMap
    requires !ReleaseUnbinds(us.serviceStateMap[inp], gone)
    requires Without(us.serviceStateMap[inp].sessionTokens, gone + {token}) != us.serviceStateMap[inp].sessionTokens
    requires UnbindRequested(inp) in added <==> ReleaseUnbinds(us.serviceStateMap[inp], gone + {token})
    requires inp in after.serviceStateMap <==> !ReleaseUnbinds(us.serviceStateMap[inp], gone + {token})
    requires inp in after.serviceStateMap ==>
      SessionsLeft(us.serviceStateMap[inp], after.serviceStateMap[inp], gone + {token})
    requires forall id | UnbindRequested(id) in added :: id == inp
    requires after.serviceStateMap - {inp} == cur.serviceStateMap - {inp}
    ensures ReleasedServices(us, gone + {token}, after, evs + added)
  {
    var gone2 := gone + {token};
    var evs2 := evs + added;
    var m0 := us.serviceStateMap;
    forall id | id in m0
      ensures id !in after.serviceStateMap <==> ReleaseUnbinds(m0[id], gone2)
      ensures UnbindRequested(id) in evs2 <==> ReleaseUnbinds(m0[id], gone2)
      ensures id in after.serviceStateMap ==> SessionsLeft(m0[id], after.serviceStateMap[id], gone2)
      ensures Without(m0[id].sessionTokens, gone2) == m0[id].sessionTokens ==>
        id in after.serviceStateMap && after.serviceStateMap[id] == m0[id]
    {
      ReleaseStepAt(us, gone, cur, evs, token, inp, after, added, id);
    }
    forall id | id in after.serviceStateMap
      ensures id in m0
    {
      if id != inp {
        SameOutside(after.serviceStateMap, cur.serviceStateMap, inp, id);
      }
    }
    assert forall e | e in evs2 :: e in evs || e in added;
  }

  /** ReleaseStepTables for one service entry. */
  lemma ReleaseStepAt(us: UserState, gone: set<Token>, cur: UserState, evs: seq<ServerEvent>,
                      token: Token, inp: string, after: UserState, added: seq<ServerEvent>, id: string)
    requires Consistent(us) && ReleasedServices(us, gone, cur, evs)
    requires token in us.sessionStateMap && us.sessionStateMap[token].inputId == inp
    requires inp in us.serviceStateMap && inp in cur.serviceStateMap
    requires !ReleaseUnbinds(us.serviceStateMap[inp], gone)
    requires Without(us.serviceStateMap[inp].sessionTokens, gone + {token}) != us.serviceStateMap[inp].sessionTokens
    requires UnbindRequested(inp) in added <==> ReleaseUnbinds(us.serviceStateMap[inp], gone + {token})
    requires inp in after.serviceStateMap <==> !ReleaseUnbinds(us.serviceStateMap[inp], gone + {token})
    requires inp in after.serviceStateMap ==>
      SessionsLeft(us.serviceStateMap[inp], after.serviceStateMap[inp], gone + {token})
    requires forall id | UnbindRequested(id) in added :: id == inp
    requires after.serviceStateMap - {inp} == cur.serviceStateMap - {inp}
    requires id in us.serviceStateMap
    ensures var gone2 := gone + {token};
      var ss := us.serviceStateMap[id];
      && (id !in after.serviceStateMap <==> ReleaseUnbinds(ss, gone2))
      && (UnbindRequested(id) in evs + added <==> ReleaseUnbinds(ss, gone2))
      && (id in after.serviceStateMap ==> SessionsLeft(ss, after.serviceStateMap[id], gone2))
      && (Without(ss.sessionTokens, gone2) == ss.sessionTokens ==>
            id in after.serviceStateMap && after.serviceStateMap[id] == ss)
  {
    if id == inp {
      assert UnbindRequested(inp) !in evs;
    } else {
      assert ServiceListOk(us, id);
      WithoutAbsent(us.serviceStateMap[id].sessionTokens, gone, token);
      SameOutside(after.serviceStateMap, cur.serviceStateMap, inp, id);
      assert UnbindRequested(id) !in added;
    }
  }

  /** Two maps equal outside k agree on every other key. */
  lemma SameOutside<K, V>(a: map<K, V>, b: map<K, V>, k: K, x: K)
    requires a - {k} == b - {k} && x != k
    ensures x in a <==> x in b
    ensures x in a ==> a[x] == b[x]
  {
    assert x in a <==> x in a - {k};
    assert x in b <==> x in b - {k};
    if x in a {
      assert a[x] == (a - {k})[x];
      assert b[x] == (b - {k})[x];
    }
  }

  /**
   * The first loop of ClientState.binderDied: while the client lists a
   * session, the first one is released as the system. Every session of the
   * client leaves the session table and no other does.
   */
  method ReleaseClientSessions(us: UserState, client: Token, cx: Context) returns (r: Step)
    requires Consistent(us)
    ensures Consistent(r.us)
    ensures client in r.us.clientStateMap ==> r.us.clientStateMap[client].sessionTokens == []
    ensures r.us.sessionStateMap == us.sessionStateMap - ClientSessions(us, client)
    ensures r.us.inputMap == us.inputMap && r.us.callbackSet == us.callbackSet
    ensures r.us.clientStateMap - {client} == us.clientStateMap - {client}
    ensures forall t | t in ClientSessions(us, client) ::
      t in us.sessionStateMap && us.sessionStateMap[t].session.Some?
      && BackendSessionReleased(us.sessionStateMap[t].session.value) in r.events
    ensures KeepsWatchedServices(us, r.us)
    ensures ReleasedServices(us, ClientSessions(us, client), r.us, r.events)
  {
    var cur := us;
    ghost var mine := ClientSessions(us, client);
    var released: seq<ServerEvent> := [];
    if client in us.clientStateMap {
      assert ClientListOk(us, client);
    }
    ReleasedNothing(us);
    assert mine - ClientSessions(cur, client) == {};
    while client in cur.clientStateMap && cur.clientStateMap[client].sessionTokens != []
      invariant Consistent(cur)
      invariant ClientSessions(cur, client) <= mine
      invariant forall t | t in mine :: t in us.sessionStateMap && us.sessionStateMap[t].session.Some?
      invariant cur.sessionStateMap == us.sessionStateMap - (mine - ClientSessions(cur, client))
      invariant cur.inputMap == us.inputMap && cur.callbackSet == us.callbackSet
      invariant cur.clientStateMap - {client} == us.clientStateMap - {client}
      invariant forall t | t in mine - ClientSessions(cur, client) ::
        BackendSessionReleased(us.sessionStateMap[t].session.value) in released
      invariant KeepsWatchedServices(us, cur)
      invariant ReleasedServices(us, mine - ClientSessions(cur, client), cur, released)
      decreases if client in cur.clientStateMap then |cur.clientStateMap[client].sessionTokens| else 0
    {
      var token := cur.clientStateMap[client].sessionTokens[0];
      ReleaseFirstSession(cur, client, cx);
      assert ClientListOk(cur, client);
      var step := ReleaseSessionLocked(map[cx.userId := cur], token, SYSTEM_UID, cx);
      ghost var gone := mine - ClientSessions(cur, client);
      ReleaseStepServices(us, gone, cur, released, token, cx,
                          [BackendSessionReleased(us.sessionStateMap[token].session.value)]);
      MinusOneLess(mine, ClientSessions(cur, client), ClientSessions(step.value.us, client), token);
      RemoveOneMore(us.sessionStateMap, mine, ClientSessions(cur, client), token);
      assert step.value.events[0] == BackendSessionReleased(us.sessionStateMap[token].session.value);
      KeepsWatchedTransitive(us, cur, step.value.us);
      ghost var before := released;
      released := released + step.value.events;
      assert released[|before|] == BackendSessionReleased(us.sessionStateMap[token].session.value);
      assert forall e | e in before :: e in released;
      cur := step.value.us;
    }
    assert ClientSessions(cur, client) == {};
    assert mine - ClientSessions(cur, client) == mine;
    return Step(cur, released);
  }

  /** Taking one more element out of the part still left grows the part taken by it. */
  lemma MinusOneLess<T>(all: set<T>, left: set<T>, left2: set<T>, x: T)
    requires x in left && left <= all && left2 == left - {x}
    ensures all - left2 == (all - left) + {x}
  {
  }

  /** A consistent table keeps no entry for a client with no input and no session. */
  lemma ClientEntryNotEmpty(us: UserState, client: Token)
    requires Consistent(us) && client in us.clientStateMap
    ensures !IsEmpty(us.clientStateMap[client])
  {
    assert ClientListOk(us, client);
  }

  /** The client still lists inputId among the inputs it watches. */
  ghost predicate StillWatching(us: UserState, client: Token, inputId: string)
  {
    client in us.clientStateMap && inputId in us.clientStateMap[client].inputIds
  }

  /**
   * A service entry once the client stopped watching it, as
   * unregisterClientInternalLocked leaves it: the client leaves its list, and
   * the state callback goes when the client was the sole watcher.
   */
  ghost function WithoutWatcher(ss: ServiceState, client: Token): ServiceState
  {
    ss.(clientTokens := RemoveFirst(ss.clientTokens, client), hasCallback := ss.hasCallback && !SoleWatcher(ss, client))
  }

  /** Unregistering the client forgets the service, with an unbind request: it was the sole watcher and no session is left. */
  ghost predicate UnwatchUnbinds(ss: ServiceState, client: Token)
  {
    SoleWatcher(ss, client) && ss.sessionTokens == []
  }

  /**
   * The service table and the unbind requests while the second loop of
   * ClientState.binderDied runs: an input the client still watches is as it
   * was; any other is forgotten, with an unbind request, exactly when
   * UnwatchUnbinds, and otherwise keeps the entry WithoutWatcher gives.
   */
  ghost predicate UnwatchedServices(us: UserState, client: Token, cur: UserState, evs: seq<ServerEvent>)
  {
    && cur.serviceStateMap.Keys <= us.serviceStateMap.Keys
    && (forall id | UnbindRequested(id) in evs :: id in us.serviceStateMap)
    && (forall id | id in us.serviceStateMap && StillWatching(cur, client, id) ::
          id in cur.serviceStateMap && cur.serviceStateMap[id] == us.serviceStateMap[id]
          && UnbindRequested(id) !in evs)
    && (forall id | id in us.serviceStateMap && !StillWatching(cur, client, id) ::
          && (id !in cur.serviceStateMap <==> UnwatchUnbinds(us.serviceStateMap[id], client))
          && (UnbindRequested(id) in evs <==> UnwatchUnbinds(us.serviceStateMap[id], client))
          && (id in cur.serviceStateMap ==> cur.serviceStateMap[id] == WithoutWatcher(us.serviceStateMap[id], client)))
  }

  /** A service the client does not watch is left as it is. */
  lemma WithoutOtherWatcher(ss: ServiceState, client: Token)
    requires client !in ss.clientTokens
    ensures WithoutWatcher(ss, client) == ss && !UnwatchUnbinds(ss, client)
  {
    assert ss.clientTokens != [client];
  }

  /** Before the second loop, nothing is forgotten and nothing changed. */
  lemma UnwatchedNothing(us: UserState, client: Token)
    requires Consistent(us)
    ensures UnwatchedServices(us, client, us, [])
  {
    forall id | id in us.serviceStateMap && !StillWatching(us, client, id)
      ensures WithoutWatcher(us.serviceStateMap[id], client) == us.serviceStateMap[id]
      ensures !UnwatchUnbinds(us.serviceStateMap[id], client)
    {
      assert ServiceListOk(us, id);
      WithoutOtherWatcher(us.serviceStateMap[id], client);
    }
  }

  /** One round of the second loop extends UnwatchedServices by the client's first input. */
  lemma UnwatchStep(us: UserState, client: Token, cur: UserState, evs: seq<ServerEvent>, cx: Context)
    requires Consistent(us) && Consistent(cur) && UnwatchedServices(us, client, cur, evs)
    requires client in cur.clientStateMap && cur.clientStateMap[client].inputIds != []
    ensures var step := UnregisterClientInternal(cur, client, cur.clientStateMap[client].inputIds[0], cx);
      UnwatchedServices(us, client, step.us, evs + step.events)
  {
    var ids := cur.clientStateMap[client].inputIds;
    var first := ids[0];
    var step := UnregisterClientInternal(cur, client, first, cx);
    assert ClientListOk(cur, client);
    assert StillWatching(cur, client, first);
    var ss := us.serviceStateMap[first];
    assert ServiceListOk(us, first);
    RemoveFirstEmpty(ss.clientTokens, client);
    assert RemoveFirst(ids, first) == ids[1..];
    RemoveFirstKeepsNoDuplicates(ids, first);
    forall id | id != first
      ensures StillWatching(step.us, client, id) <==> StillWatching(cur, client, id)
    {
      RemoveFirstKeepsOthers(ids, first, id);
    }
    UnwatchStepTables(us, client, cur, evs, first, step.us, step.events);
  }

  /** UnwatchStep over any tables and events that change the first input's service as one round does. */
  lemma UnwatchStepTables(us: UserState, client: Token, cur: UserState, evs: seq<ServerEvent>,
                          first: string, after: UserState, added: seq<ServerEvent>)
    requires UnwatchedServices(us, client, cur, evs)
    requires first in us.serviceStateMap
    requires StillWatching(cur, client, first) && !StillWatching(after, client, first)
    requires forall id | id != first :: StillWatching(after, client, id) <==> StillWatching(cur, client, id)
    requires first in after.serviceStateMap <==> !UnwatchUnbinds(us.serviceStateMap[first], client)
    requires first in after.serviceStateMap ==>
      after.serviceStateMap[first] == WithoutWatcher(us.serviceStateMap[first], client)
    requires UnbindRequested(first) in added <==> UnwatchUnbinds(us.serviceStateMap[first], client)
    requires forall id | UnbindRequested(id) in added :: id == first
    requires after.serviceStateMap - {first} == cur.serviceStateMap - {first}
    ensures UnwatchedServices(us, client, after, evs + added)
  {
    var evs2 := evs + added;
    var m0 := us.serviceStateMap;
    forall id | id in m0
      ensures StillWatching(after, client, id) ==>
        id in after.serviceStateMap && after.serviceStateMap[id] == m0[id] && UnbindRequested(id) !in evs2
      ensures !StillWatching(after, client, id) ==>
        && (id !in after.serviceStateMap <==> UnwatchUnbinds(m0[id], client))
        && (UnbindRequested(id) in evs2 <==> UnwatchUnbinds(m0[id], client))
        && (id in after.serviceStateMap ==> after.serviceStateMap[id] == WithoutWatcher(m0[id], client))
    {
      UnwatchStepAt(us, client, cur, evs, first, after, added, id);
    }
    forall id | id in after.serviceStateMap
      ensures id in m0
    {
      if id != first {
        SameOutside(after.serviceStateMap, cur.serviceStateMap, first, id);
      }
    }
    assert forall e | e in evs2 :: e in evs || e in added;
  }

  /** UnwatchStepTables for one service entry. */
  lemma UnwatchStepAt(us: UserState, client: Token, cur: UserState, evs: seq<ServerEvent>,
                      first: string, after: UserState, added: seq<ServerEvent>, id: string)
    requires UnwatchedServices(us, client, cur, evs)
    requires first in us.serviceStateMap
    requires StillWatching(cur, client, first) && !StillWatching(after, client, first)
    requires forall id | id != first :: StillWatching(after, client, id) <==> StillWatching(cur, client, id)
    requires first in after.serviceStateMap <==> !UnwatchUnbinds(us.serviceStateMap[first], client)
    requires first in after.serviceStateMap ==>
      after.serviceStateMap[first] == WithoutWatcher(us.serviceStateMap[first], client)
    requires UnbindRequested(first) in added <==> UnwatchUnbinds(us.serviceStateMap[first], client)
    requires forall id | UnbindRequested(id) in added :: id == first
    requires after.serviceStateMap - {first} == cur.serviceStateMap - {first}
    requires id in us.serviceStateMap
    ensures var ss := us.serviceStateMap[id];
      && (StillWatching(after, client, id) ==>
            id in after.serviceStateMap && after.serviceStateMap[id] == ss && UnbindRequested(id) !in evs + added)
      && (!StillWatching(after, client, id) ==>
            && (id !in after.serviceStateMap <==> UnwatchUnbinds(ss, client))
            && (UnbindRequested(id) in evs + added <==> UnwatchUnbinds(ss, client))
            && (id in after.serviceStateMap ==> after.serviceStateMap[id] == WithoutWatcher(ss, client)))
  {
    if id == first {
      assert UnbindRequested(first) !in evs;
    } else {
      SameOutside(after.serviceStateMap, cur.serviceStateMap, first, id);
      assert UnbindRequested(id) !in added;
    }
  }

  /**
   * Every service the client was the sole watcher of has had its callback
   * unregistered, or is still watched by the client alone.
   */
  ghost predicate CallbacksDropped(us: UserState, client: Token, cur: UserState, calls: seq<ServerEvent>)
  {
    forall id | id in us.serviceStateMap && SoleWatcher(us.serviceStateMap[id], client) ::
      || BackendCallbackUnregistered(id) in calls
      || (&& StillWatching(cur, client, id)
          && id in cur.serviceStateMap && SoleWatcher(cur.serviceStateMap[id], client))
  }

  /** One round of the second loop keeps CallbacksDropped. */
  lemma CallbackStep(us: UserState, client: Token, cur: UserState, calls: seq<ServerEvent>, cx: Context)
    requires Consistent(cur) && CallbacksDropped(us, client, cur, calls)
    requires client in cur.clientStateMap && cur.clientStateMap[client].inputIds != []
    ensures var step := UnregisterClientInternal(cur, client, cur.clientStateMap[client].inputIds[0], cx);
      CallbacksDropped(us, client, step.us, calls + step.events)
  {
    var inputIds := cur.clientStateMap[client].inputIds;
    var first := inputIds[0];
    var step := UnregisterClientInternal(cur, client, first, cx);
    assert RemoveFirst(inputIds, first) == inputIds[1..];
    assert RemoveFirst([client], client) == [];
    forall id | id in us.serviceStateMap && SoleWatcher(us.serviceStateMap[id], client)
      ensures || BackendCallbackUnregistered(id) in calls + step.events
              || (&& StillWatching(step.us, client, id)
                  && id in step.us.serviceStateMap && SoleWatcher(step.us.serviceStateMap[id], client))
    {
      if BackendCallbackUnregistered(id) !in calls {
        if id == first {
          assert step.events[0] == (calls + step.events)[|calls|];
        } else {
          RemoveFirstKeepsOthers(inputIds, first, id);
          SameOutside(step.us.serviceStateMap, cur.serviceStateMap, first, id);
        }
      } else {
        assert forall e | e in calls :: e in calls + step.events;
      }
    }
  }

  /**
   * The second loop of ClientState.binderDied: while the client watches an
   * input, it is unregistered from the first one. A client with no session
   * left then has no entry.
   */
  method UnregisterClientInputs(us: UserState, client: Token, cx: Context) returns (r: Step)
    requires Consistent(us)
    requires client in us.clientStateMap ==> us.clientStateMap[client].sessionTokens == []
    ensures Consistent(r.us)
    ensures client !in r.us.clientStateMap
    ensures r.us.sessionStateMap == us.sessionStateMap
    ensures r.us.inputMap == us.inputMap && r.us.callbackSet == us.callbackSet
    ensures r.us.clientStateMap == us.clientStateMap - {client}
    ensures forall id | id in r.us.serviceStateMap :: client !in r.us.serviceStateMap[id].clientTokens
    ensures forall id | id in us.serviceStateMap && SoleWatcher(us.serviceStateMap[id], client) ::
      BackendCallbackUnregistered(id) in r.events
    ensures r.us.serviceStateMap.Keys <= us.serviceStateMap.Keys
    ensures forall id | UnbindRequested(id) in r.events :: id in us.serviceStateMap
    ensures forall id | id in us.serviceStateMap ::
      && (id !in r.us.serviceStateMap <==> UnwatchUnbinds(us.serviceStateMap[id], client))
      && (UnbindRequested(id) in r.events <==> UnwatchUnbinds(us.serviceStateMap[id], client))
      && (id in r.us.serviceStateMap ==> r.us.serviceStateMap[id] == WithoutWatcher(us.serviceStateMap[id], client))
    ensures forall id | id in us.serviceStateMap && client !in us.serviceStateMap[id].clientTokens ::
      id in r.us.serviceStateMap && r.us.serviceStateMap[id] == us.serviceStateMap[id]
  {
    var cur := us;
    var calls: seq<ServerEvent> := [];
    UnwatchedNothing(us, client);
    forall id | id in us.serviceStateMap && SoleWatcher(us.serviceStateMap[id], client)
      ensures client in us.clientStateMap && id in us.clientStateMap[client].inputIds
    {
      assert ServiceListOk(us, id) && client in us.serviceStateMap[id].clientTokens;
    }
    while client in cur.clientStateMap && cur.clientStateMap[client].inputIds != []
      invariant Consistent(cur)
      invariant client in cur.clientStateMap ==> cur.clientStateMap[client].sessionTokens == []
      invariant cur.sessionStateMap == us.sessionStateMap
      invariant cur.inputMap == us.inputMap && cur.callbackSet == us.callbackSet
      invariant cur.clientStateMap - {client} == us.clientStateMap - {client}
      invariant CallbacksDropped(us, client, cur, calls)
      invariant UnwatchedServices(us, client, cur, calls)
      decreases if client in cur.clientStateMap then |cur.clientStateMap[client].inputIds| else 0
    {
      var inputIds := cur.clientStateMap[client].inputIds;
      var first := inputIds[0];
      var step := UnregisterClientInternal(cur, client, first, cx);
      UnwatchStep(us, client, cur, calls, cx);
      CallbackStep(us, client, cur, calls, cx);
      assert RemoveFirst(inputIds, first) == inputIds[1..];
      cur := step.us;
      calls := calls + step.events;
    }
    if client in cur.clientStateMap {
      ClientEntryNotEmpty(cur, client);
    }
    forall id | id in cur.serviceStateMap
      ensures client !in cur.serviceStateMap[id].clientTokens
    {
      assert ServiceListOk(cur, id);
    }
    assert forall id :: !StillWatching(cur, client, id);
    forall id | id in us.serviceStateMap && client !in us.serviceStateMap[id].clientTokens
      ensures WithoutWatcher(us.serviceStateMap[id], client) == us.serviceStateMap[id]
      ensures !UnwatchUnbinds(us.serviceStateMap[id], client)
    {
      WithoutOtherWatcher(us.serviceStateMap[id], client);
    }
    return Step(cur, calls);
  }


  /**
   * ClientState.binderDied forgets a service, with an unbind request, when it
   * is connected and, once the client's sessions are gone, has no session
   * left and either no client or the dead client as its sole watcher with a
   * state callback.
   */
  ghost predicate ClientGoneUnbinds(ss: ServiceState, client: Token, mine: set<Token>)
  {
    ReleaseUnbinds(ss, mine) || (SoleWatcher(ss, client) && Without(ss.sessionTokens, mine) == [])
  }

  /**
   * A service entry ClientState.binderDied keeps: without the client's
   * sessions, without the client as a watcher, and without its state
   * callback when the client was the sole watcher; the same backend.
   */
  ghost predicate ClientGoneLeft(ss: ServiceState, after: ServiceState, client: Token, mine: set<Token>)
  {
    && after.clientTokens == RemoveFirst(ss.clientTokens, client)
    && after.sessionTokens == Without(ss.sessionTokens, mine)
    && after.service == ss.service
    && after.hasCallback == (ss.hasCallback && !SoleWatcher(ss, client))
  }

  /**
   * The service table and the unbind requests after ClientState.binderDied
   * for a client whose sessions were mine: a service is forgotten, with an
   * unbind request, exactly when ClientGoneUnbinds; a kept entry is as
   * ClientGoneLeft says; an entry neither watched by the client nor
   * listing one of its sessions is as it was.
   */
  ghost predicate ClientGoneServices(us: UserState, client: Token, after: UserState, evs: seq<ServerEvent>)
  {
    var mine := ClientSessions(us, client);
    && after.serviceStateMap.Keys <= us.serviceStateMap.Keys
    && (forall id | UnbindRequested(id) in evs :: id in us.serviceStateMap)
    && (forall id | id in us.serviceStateMap ::
          && (id !in after.serviceStateMap <==> ClientGoneUnbinds(us.serviceStateMap[id], client, mine))
          && (UnbindRequested(id) in evs <==> ClientGoneUnbinds(us.serviceStateMap[id], client, mine))
          && (id in after.serviceStateMap ==>
                ClientGoneLeft(us.serviceStateMap[id], after.serviceStateMap[id], client, mine)))
    && (forall id | id in us.serviceStateMap && client !in us.serviceStateMap[id].clientTokens
                    && Without(us.serviceStateMap[id].sessionTokens, mine) == us.serviceStateMap[id].sessionTokens ::
          id in after.serviceStateMap && after.serviceStateMap[id] == us.serviceStateMap[id])
  }

  /** The two loops of ClientState.binderDied together give ClientGoneServices. */
  lemma ClientGoneCombined(us: UserState, client: Token, mid: UserState, evs1: seq<ServerEvent>,
                           after: UserState, evs2: seq<ServerEvent>)
    requires ReleasedServices(us, ClientSessions(us, client), mid, evs1)
    requires after.serviceStateMap.Keys <= mid.serviceStateMap.Keys
    requires forall id | UnbindRequested(id) in evs2 :: id in mid.serviceStateMap
    requires forall id | id in mid.serviceStateMap ::
      && (id !in after.serviceStateMap <==> UnwatchUnbinds(mid.serviceStateMap[id], client))
      && (UnbindRequested(id) in evs2 <==> UnwatchUnbinds(mid.serviceStateMap[id], client))
      && (id in after.serviceStateMap ==> after.serviceStateMap[id] == WithoutWatcher(mid.serviceStateMap[id], client))
    ensures ClientGoneServices(us, client, after, evs1 + evs2)
  {
    var mine := ClientSessions(us, client);
    forall id | id in us.serviceStateMap
      ensures id !in after.serviceStateMap <==> ClientGoneUnbinds(us.serviceStateMap[id], client, mine)
      ensures UnbindRequested(id) in evs1 + evs2 <==> ClientGoneUnbinds(us.serviceStateMap[id], client, mine)
      ensures id in after.serviceStateMap ==>
        ClientGoneLeft(us.serviceStateMap[id], after.serviceStateMap[id], client, mine)
      ensures client !in us.serviceStateMap[id].clientTokens
              && Without(us.serviceStateMap[id].sessionTokens, mine) == us.serviceStateMap[id].sessionTokens ==>
        id in after.serviceStateMap && after.serviceStateMap[id] == us.serviceStateMap[id]
    {
      var ss := us.serviceStateMap[id];
      var inMid := id in mid.serviceStateMap;
      var inAfter := id in after.serviceStateMap;
      assert UnbindRequested(id) in evs1 + evs2 <==> UnbindRequested(id) in evs1 || UnbindRequested(id) in evs2;
      ClientGoneAt(ss, client, mine, inMid, if inMid then mid.serviceStateMap[id] else ss,
                   inAfter, if inAfter then after.serviceStateMap[id] else ss,
                   UnbindRequested(id) in evs1, UnbindRequested(id) in evs2);
    }
    assert forall e | e in evs1 + evs2 :: e in evs1 || e in evs2;
  }

  /**
   * ClientGoneCombined for one service entry ss: a is its entry after the
   * first loop when inMid, f its entry at the end when inAfter, and u1 and
   * u2 say whether each loop requested its unbinding.
   */
  lemma ClientGoneAt(ss: ServiceState, client: Token, mine: set<Token>, inMid: bool, a: ServiceState,
                     inAfter: bool, f: ServiceState, u1: bool, u2: bool)
    requires inMid <==> !ReleaseUnbinds(ss, mine)
    requires u1 <==> ReleaseUnbinds(ss, mine)
    requires inMid ==> SessionsLeft(ss, a, mine)
    requires Without(ss.sessionTokens, mine) == ss.sessionTokens ==> inMid && a == ss
    requires !inMid ==> !inAfter && !u2
    requires inMid ==> && (!inAfter <==> UnwatchUnbinds(a, client))
                       && (u2 <==> UnwatchUnbinds(a, client))
                       && (inAfter ==> f == WithoutWatcher(a, client))
    ensures !inAfter <==> ClientGoneUnbinds(ss, client, mine)
    ensures u1 || u2 <==> ClientGoneUnbinds(ss, client, mine)
    ensures inAfter ==> ClientGoneLeft(ss, f, client, mine)
    ensures client !in ss.clientTokens && Without(ss.sessionTokens, mine) == ss.sessionTokens ==> inAfter && f == ss
  {
    if inMid {
      assert SoleWatcher(a, client) == SoleWatcher(ss, client);
      if client !in ss.clientTokens {
        WithoutOtherWatcher(ss, client);
        WithoutOtherWatcher(a, client);
      }
    }
  }

  /**
   * ClientState.binderDied on one user's tables: the client's sessions are
   * released, then it is unregistered from every input it watched. Its
   * entry is gone and so are exactly its sessions; every backend session it
   * held is released and every callback only it watched is unregistered;
   * the service table is as ClientGoneServices says.
   */
  method ClientDied(us: UserState, client: Token, cx: Context) returns (r: Step)
    requires Consistent(us)
    ensures Consistent(r.us)
    ensures client !in r.us.clientStateMap
    ensures r.us.sessionStateMap == us.sessionStateMap - ClientSessions(us, client)
    ensures r.us.inputMap == us.inputMap && r.us.callbackSet == us.callbackSet
    ensures r.us.clientStateMap == us.clientStateMap - {client}
    ensures forall id | id in r.us.serviceStateMap :: client !in r.us.serviceStateMap[id].clientTokens
    ensures forall t | t in ClientSessions(us, client) ::
      t in us.sessionStateMap && us.sessionStateMap[t].session.Some?
      && BackendSessionReleased(us.sessionStateMap[t].session.value) in r.events
    ensures forall id | id in us.serviceStateMap && SoleWatcher(us.serviceStateMap[id], client) ::
      BackendCallbackUnregistered(id) in r.events
    ensures ClientGoneServices(us, client, r.us, r.events)
  {
    var released := ReleaseClientSessions(us, client, cx);
    var unregistered := UnregisterClientInputs(released.us, client, cx);
    assert forall id | id in us.serviceStateMap && SoleWatcher(us.serviceStateMap[id], client) ::
      id in released.us.serviceStateMap && SoleWatcher(released.us.serviceStateMap[id], client);
    ClientGoneCombined(us, client, released.us, released.events, unregistered.us, unregistered.events);
    r := Step(unregistered.us, released.events + unregistered.events);
    assert forall e | e in released.events || e in unregistered.events :: e in r.events;
  }

  /** The client is the only watcher of a connected service that has a state callback. */
  ghost predicate SoleWatcher(ss: ServiceState, client: Token)
  {
    ss.clientTokens == [client] && ss.service.Some? && ss.hasCallback
  }

  /** Handing out a token keeps every older token below the counter. */
  lemma BumpValid(users: map<int, UserState>, next: Token)
    requires AllValid(users, next)
    ensures AllValid(users, next + 1)
  {
  }

  /** Not connected but still needed: a state change is not reported while the service reconnects. */
  predicate AwaitingService(ss: ServiceState)
  {
    ss.service.None? && (ss.clientTokens != [] || ss.sessionTokens != [])
  }

  /** A connection to one input service, for one user. */
  datatype Connection = Connection(inputId: string, component: string, userId: int)

  /** One state-change call per callback of the set, for the same input and state. */
  ghost predicate Broadcast(evs: seq<ServerEvent>, callbacks: set<Token>, inputId: string, state: int)
  {
    && |evs| == |callbacks|
    && (forall e | e in evs :: e.StateChangeSent? && e.callback in callbacks && e.inputId == inputId && e.state == state)
    && (forall cb | cb in callbacks :: StateChangeSent(cb, inputId, state) in evs)
  }

  /** One state-change call to callback per input, with the input's state. */
  ghost predicate Replay(evs: seq<ServerEvent>, callback: Token, inputs: map<string, int>)
  {
    && |evs| == |inputs.Keys|
    && (forall e | e in evs ::
          e.StateChangeSent? && e.callback == callback && e.inputId in inputs && e.state == inputs[e.inputId])
    && (forall id | id in inputs :: StateChangeSent(callback, id, inputs[id]) in evs)
  }

  /** The state-change calls of notifyStateChangedLocked with no target: one per callback. */
  method BroadcastStateChange(callbacks: set<Token>, inputId: string, state: int) returns (sent: seq<ServerEvent>)
    ensures Broadcast(sent, callbacks, inputId, state)
  {
    sent := [];
    var left := callbacks;
    while left != {}
      invariant left <= callbacks
      invariant |sent| + |left| == |callbacks|
      invariant forall e | e in sent ::
        e.StateChangeSent? && e.callback in callbacks - left && e.inputId == inputId && e.state == state
      invariant forall cb | cb in callbacks - left :: StateChangeSent(cb, inputId, state) in sent
      decreases |left|
    {
      ghost var member := SomeMember(left);  // the witness for the choice below
      var callback :| callback in left;
      sent := sent + [StateChangeSent(callback, inputId, state)];
      left := left - {callback};
    }
  }

  /** The replay loop of registerCallback: the new callback hears every input's state. */
  method ReplayInputStates(callback: Token, inputs: map<string, int>) returns (sent: seq<ServerEvent>)
    ensures Replay(sent, callback, inputs)
  {
    sent := [];
    var left := inputs.Keys;
    while left != {}
      invariant left <= inputs.Keys
      invariant |sent| + |left| == |inputs.Keys|
      invariant forall e | e in sent ::
        e.StateChangeSent? && e.callback == callback && e.inputId in inputs.Keys - left
        && e.state == inputs[e.inputId]
      invariant forall id | id in inputs.Keys - left :: StateChangeSent(callback, id, inputs[id]) in sent
      decreases |left|
    {
      ghost var member := SomeMember(left);  // the witness for the choice below
      var inputId :| inputId in left;
      sent := sent + [StateChangeSent(callback, inputId, inputs[inputId])];
      left := left - {inputId};
    }
    assert inputs.Keys - left == inputs.Keys;
  }

  /** One createSessionInternalLocked request per listed session, in list order. */
  ghost function SessionRequests(inputId: string, tokens: seq<Token>): (r: seq<ServerEvent>)
    ensures |r| == |tokens|
    ensures forall i | 0 <= i < |tokens| :: r[i] == BackendSessionRequested(inputId, tokens[i])
  {
    seq(|tokens|, i requires 0 <= i < |tokens| => BackendSessionRequested(inputId, tokens[i]))
  }

  /** The session loop of onServiceConnected: each listed session is requested from the backend. */
  method RequestSessions(inputId: string, tokens: seq<Token>) returns (calls: seq<ServerEvent>)
    ensures calls == SessionRequests(inputId, tokens)
    ensures forall t | t in tokens :: BackendSessionRequested(inputId, t) in calls
  {
    calls := [];
    for i := 0 to |tokens|
      invariant calls == SessionRequests(inputId, tokens[..i])
    {
      assert tokens[..i + 1] == tokens[..i] + [tokens[i]];
      calls := calls + [BackendSessionRequested(inputId, tokens[i])];
    }
    assert tokens[..|tokens|] == tokens;
    forall t | t in tokens
      ensures BackendSessionRequested(inputId, t) in calls
    {
      var i :| 0 <= i < |tokens| && tokens[i] == t;
      assert calls[i] == BackendSessionRequested(inputId, t);
    }
  }

  /**
   * InputServiceConnection.onServiceConnected for a user that exists: a
   * missing service state throws NullPointerException; otherwise the
   * backend is recorded, a state callback is registered when clients wait
   * and none is registered yet, every listed session is requested from the
   * backend, and the input's state is broadcast unless it is disconnected.
   */
  method ServiceConnectedLocked(us: UserState, inputId: string, service: Token) returns (r: Result<Step, Exception>)
    ensures r.Failure? <==> inputId !in us.serviceStateMap
    ensures r.Failure? ==> r.error == NullPointerException
    ensures r.Success? ==>
      && var ss := us.serviceStateMap[inputId];
      && var registers := ss.clientTokens != [] && !ss.hasCallback;
      && r.value.us == us.(serviceStateMap := us.serviceStateMap[inputId :=
           ss.(service := Some(service), hasCallback := ss.hasCallback || registers)])
      && var registered := if registers then [BackendCallbackRegistered(inputId)] else [];
      && var n := |registered| + |ss.sessionTokens|;
      && n <= |r.value.events|
      && r.value.events[..n] == registered + SessionRequests(inputId, ss.sessionTokens)
      && var notifies := inputId in us.inputMap && us.inputMap[inputId] != INPUT_STATE_DISCONNECTED;
      && (notifies ==> Broadcast(r.value.events[n..], us.callbackSet, inputId, us.inputMap[inputId]))
      && (!notifies ==> r.value.events[n..] == [])
    ensures r.Success? ==>
      forall t | t in us.serviceStateMap[inputId].sessionTokens :: BackendSessionRequested(inputId, t) in r.value.events
    ensures r.Success? && Consistent(us) ==> Consistent(r.value.us)
  {
    if inputId !in us.serviceStateMap {
      return Failure(NullPointerException);
    }
    var ss := us.serviceStateMap[inputId];
    var registers := ss.clientTokens != [] && !ss.hasCallback;
    var ss1 := ss.(service := Some(service), hasCallback := ss.hasCallback || registers);
    var notify := if inputId in us.inputMap && us.inputMap[inputId] != INPUT_STATE_DISCONNECTED
                  then Some(us.inputMap[inputId]) else None;
    var calls := ConnectedCalls(inputId, registers, ss1.sessionTokens, notify, us.callbackSet);
    var after := us.(serviceStateMap := us.serviceStateMap[inputId := ss1]);
    assert Consistent(us) ==> Consistent(after) by {
      if Consistent(us) {
        BindingConsistent(us, inputId, ss1);
      }
    }
    return Success(Step(after, calls));
  }

  /**
   * The calls onServiceConnected makes once the service is set: the callback
   * registration when it registers one, a request for each listed session, then
   * the state broadcast when there is a state to tell.
   */
  method ConnectedCalls(inputId: string, registers: bool, tokens: seq<Token>, notify: Option<int>,
                        callbacks: set<Token>) returns (calls: seq<ServerEvent>)
    ensures var registered := if registers then [BackendCallbackRegistered(inputId)] else [];
      && var n := |registered| + |tokens|;
      && n <= |calls|
      && calls[..n] == registered + SessionRequests(inputId, tokens)
      && (notify.Some? ==> Broadcast(calls[n..], callbacks, inputId, notify.value))
      && (notify.None? ==> calls[n..] == [])
    ensures forall t | t in tokens :: BackendSessionRequested(inputId, t) in calls
  {
    var registered: seq<ServerEvent> := if registers then [BackendCallbackRegistered(inputId)] else [];
    var requested := RequestSessions(inputId, tokens);
    calls := registered + requested;
    var n := |calls|;
    ghost var early := calls;
    assert forall t | t in tokens :: BackendSessionRequested(inputId, t) in early;
    if notify.Some? {
      var sent := BroadcastStateChange(callbacks, inputId, notify.value);
      calls := calls + sent;
      assert calls[n..] == sent && calls[..n] == early;
    } else {
      assert calls[n..] == [] && calls[..n] == early;
    }
    assert forall e | e in early :: e in calls;
  }

  /** The sessions of tokens still waiting for their backend. */
  ghost function PendingIn(sessions: map<Token, SessionState>, tokens: seq<Token>): set<Token>
  {
    set t | t in tokens && t in sessions && sessions[t].session.None?
  }

  /** A null-token answer to the client of a session that will not be created. */
  function NullReply(s: SessionState): ServerEvent
  {
    SessionTokenSent(s.client, s.inputId, None, s.seqNum)
  }

  /** Looking at one more token of the snapshot adds it to the pending set exactly when it waits. */
  lemma PendingStep(sessions: map<Token, SessionState>, tokens: seq<Token>, i: int)
    requires 0 <= i < |tokens|
    ensures PendingIn(sessions, tokens[..i + 1])
            == PendingIn(sessions, tokens[..i])
               + (if tokens[i] in sessions && sessions[tokens[i]].session.None? then {tokens[i]} else {})
  {
    assert tokens[..i + 1] == tokens[..i] + [tokens[i]];
  }

  /**
   * One round of the session loop of onServiceDisconnected, on the
   * snapshot: a session still waiting for its backend is removed and its
   * client answered with a null token; any other is left alone.
   */
  method AnswerPending(cur: UserState, t: Token, cx: Context) returns (r: Step)
    ensures t in cur.sessionStateMap && cur.sessionStateMap[t].session.None? ==>
      && r.us == RemoveSessionState(cur, t, cx).value.us
      && r.events == RemoveSessionState(cur, t, cx).value.events + [NullReply(cur.sessionStateMap[t])]
      && r.us.sessionStateMap == cur.sessionStateMap - {t}
      && NullReply(cur.sessionStateMap[t]) in r.events
      && (var id := cur.sessionStateMap[t].inputId;
          id in cur.serviceStateMap && cur.serviceStateMap[id].service.None? ==>
            id in r.us.serviceStateMap && r.us.serviceStateMap[id].service.None?
            && r.us.serviceStateMap[id].hasCallback == cur.serviceStateMap[id].hasCallback)
    ensures !(t in cur.sessionStateMap && cur.sessionStateMap[t].session.None?) ==> r == Step(cur, [])
    ensures r.us.inputMap == cur.inputMap && r.us.callbackSet == cur.callbackSet
    ensures Consistent(cur) ==> Consistent(r.us)
  {
    if t in cur.sessionStateMap && cur.sessionStateMap[t].session.None? {
      var s := cur.sessionStateMap[t];
      var st := RemoveSessionState(cur, t, cx).value;
      return Step(st.us, st.events + [NullReply(s)]);
    }
    return Step(cur, []);
  }

  /**
   * The tables once the service of inputId lost its connection and the
   * waiting sessions in gone were removed, before the connection is updated:
   * the service is reconnecting, unbound, without backend or callback, and
   * lists only its other sessions.
   */
  ghost function Disconnected(us: UserState, inputId: string, gone: set<Token>): (r: UserState)
    requires inputId in us.serviceStateMap
    ensures r.sessionStateMap == us.sessionStateMap - gone
    ensures r.clientStateMap == us.clientStateMap
    ensures r.inputMap == us.inputMap && r.callbackSet == us.callbackSet
    ensures r.serviceStateMap - {inputId} == us.serviceStateMap - {inputId}
    ensures inputId in r.serviceStateMap
    ensures var ss := us.serviceStateMap[inputId];
      r.serviceStateMap[inputId]
      == ServiceState(ss.clientTokens, Without(ss.sessionTokens, gone), None, false, false, true)
  {
    var ss := us.serviceStateMap[inputId];
    var entry := ServiceState(ss.clientTokens, Without(ss.sessionTokens, gone), None, false, false, true);
    UpdateOutside(us.serviceStateMap, inputId, entry);
    us.(sessionStateMap := us.sessionStateMap - gone,
        serviceStateMap := us.serviceStateMap[inputId := entry])
  }

  /**
   * Where the session loop of onServiceDisconnected stands after answering
   * the waiting sessions in gone: still draining, or, once the service
   * listed no session any more, with the connection updated by the last
   * removal.
   */
  ghost predicate DisconnectStage(us: UserState, inputId: string, cx: Context, gone: set<Token>, cur: UserState)
    requires inputId in us.serviceStateMap
  {
    || cur == Disconnected(us, inputId, gone)
    || (&& Without(us.serviceStateMap[inputId].sessionTokens, gone) == []
        && cur == UpdateServiceConnection(Disconnected(us, inputId, gone), inputId, cx).us)
  }

  /** The events the session loop of onServiceDisconnected may make: null answers, closed log entries, a bind. */
  ghost predicate DisconnectEvents(evs: seq<ServerEvent>, inputId: string, cx: Context)
  {
    forall e | e in evs ::
      (e.SessionTokenSent? && e.token.None?) || e.LogEntryClosed? || e == BindRequested(inputId, cx.userId)
  }

  /** The answers to clients among evs, in order. */
  ghost function Replies(evs: seq<ServerEvent>): (r: seq<ServerEvent>)
    ensures forall e | e in r :: e in evs && e.SessionTokenSent?
    ensures (forall e | e in evs :: !e.SessionTokenSent?) ==> r == []
  {
    if evs == [] then []
    else (if evs[0].SessionTokenSent? then [evs[0]] else []) + Replies(evs[1..])
  }

  lemma {:induction false} RepliesAppend(a: seq<ServerEvent>, b: seq<ServerEvent>)
    ensures Replies(a + b) == Replies(a) + Replies(b)
  {
    if a != [] {
      assert (a + b)[0] == a[0] && (a + b)[1..] == a[1..] + b;
      RepliesAppend(a[1..], b);
    } else {
      assert a + b == b;
    }
  }

  /**
   * Updating the connection twice is updating it once: the second update
   * finds nothing left to change, though a failed bind is asked for again.
   */
  lemma UpdateSettles(us: UserState, inputId: string, cx: Context)
    ensures UpdateServiceConnection(UpdateServiceConnection(us, inputId, cx).us, inputId, cx).us
            == UpdateServiceConnection(us, inputId, cx).us
  {
    var u := UpdateServiceConnection(us, inputId, cx);
    var v := UpdateServiceConnection(u.us, inputId, cx);
    if inputId in u.us.serviceStateMap {
      var after := u.us.serviceStateMap[inputId];
      assert !UnbindWanted(u.us, inputId);
      assert Draining(u.us, inputId) == after.reconnecting;
      assert BindWanted(u.us, inputId, cx) ==> after.bound == cx.bindSucceeds;
      assert v.us.serviceStateMap[inputId] == after;
      SameOutsideAndAt(u.us.serviceStateMap, v.us.serviceStateMap, inputId);
    }
  }

  /** Two maps that agree outside k and at k are equal. */
  lemma SameOutsideAndAt<K, V>(a: map<K, V>, b: map<K, V>, k: K)
    requires a - {k} == b - {k}
    requires k in a && k in b && a[k] == b[k]
    ensures a == b
  {
    assert a.Keys == b.Keys by {
      assert a.Keys == (a - {k}).Keys + {k};
      assert b.Keys == (b - {k}).Keys + {k};
    }
    forall x | x in a
      ensures a[x] == b[x]
    {
      if x != k {
        assert a[x] == (a - {k})[x];
        assert b[x] == (b - {k})[x];
      }
    }
  }

  /**
   * One round of the session loop of onServiceDisconnected, on the
   * snapshot: a session still waiting is removed, which either keeps the
   * service draining or, for the last session it listed, updates the
   * connection; any other token finds nothing to do.
   */
  lemma DisconnectRound(us: UserState, inputId: string, cx: Context, i: int, cur: UserState)
    requires Consistent(us) && inputId in us.serviceStateMap
    requires 0 <= i < |us.serviceStateMap[inputId].sessionTokens|
    requires DisconnectStage(us, inputId, cx, PendingIn(us.sessionStateMap, us.serviceStateMap[inputId].sessionTokens[..i]), cur)
    ensures var snapshot := us.serviceStateMap[inputId].sessionTokens;
      var gone := PendingIn(us.sessionStateMap, snapshot[..i]);
      var t := snapshot[i];
      && cur.sessionStateMap == us.sessionStateMap - gone
      && (t in cur.sessionStateMap && cur.sessionStateMap[t].session.None? ==>
            && t !in gone && t in us.sessionStateMap
            && PendingIn(us.sessionStateMap, snapshot[..i + 1]) == gone + {t}
            && cur.sessionStateMap[t] == us.sessionStateMap[t]
            && var removed := RemoveSessionState(cur, t, cx).value;
            && DisconnectStage(us, inputId, cx, gone + {t}, removed.us)
            && DisconnectEvents(removed.events, inputId, cx)
            && Replies(removed.events) == [])
      && (!(t in cur.sessionStateMap && cur.sessionStateMap[t].session.None?) ==>
            PendingIn(us.sessionStateMap, snapshot[..i + 1]) == gone)
  {
    var snapshot := us.serviceStateMap[inputId].sessionTokens;
    var gone := PendingIn(us.sessionStateMap, snapshot[..i]);
    var t := snapshot[i];
    var d := Disconnected(us, inputId, gone);
    assert ServiceListOk(us, inputId);
    PendingStep(us.sessionStateMap, snapshot, i);
    assert t !in snapshot[..i] by {
      forall j | 0 <= j < i
        ensures snapshot[j] != t
      {
        assert snapshot[..i][j] == snapshot[j];
      }
    }
    assert t !in gone;
    assert t in Without(snapshot, gone);
    assert cur.sessionStateMap == us.sessionStateMap - gone;
    if t in cur.sessionStateMap && cur.sessionStateMap[t].session.None? {
      assert cur == d;
      RemoveWaiting(us, inputId, cx, gone, t);
    }
  }

  /** Removing a waiting session from the disconnected tables: the next stage, with only loop events. */
  lemma RemoveWaiting(us: UserState, inputId: string, cx: Context, gone: set<Token>, t: Token)
    requires Consistent(us) && inputId in us.serviceStateMap
    requires t in us.serviceStateMap[inputId].sessionTokens && t !in gone
    requires t in us.sessionStateMap && us.sessionStateMap[t].session.None?
    ensures var removed := RemoveSessionState(Disconnected(us, inputId, gone), t, cx);
      && removed.Success?
      && DisconnectStage(us, inputId, cx, gone + {t}, removed.value.us)
      && DisconnectEvents(removed.value.events, inputId, cx)
      && Replies(removed.value.events) == []
  {
    RemovedWaitingIsUpdate(us, inputId, cx, gone, t);
    DisconnectedUpdateStage(us, inputId, cx, gone + {t});
    var s := us.sessionStateMap[t];
    var closed := if s.logUri.Some? then [LogEntryClosed(s.logUri.value)] else [];
    var u2 := UpdateServiceConnection(Disconnected(us, inputId, gone + {t}), inputId, cx);
    LoopEvents(closed, u2.events, inputId, cx);
  }

  /** A closed log and at most a bind request are events of the loop, and answer no client. */
  lemma LoopEvents(closed: seq<ServerEvent>, evs: seq<ServerEvent>, inputId: string, cx: Context)
    requires forall e | e in closed :: e.LogEntryClosed?
    requires evs == [] || evs == [BindRequested(inputId, cx.userId)]
    ensures DisconnectEvents(closed + evs, inputId, cx)
    ensures Replies(closed + evs) == []
  {
    assert forall e | e in closed + evs :: e in closed || e in evs;
  }

  /** Removing a waiting session from the disconnected tables is updating the connection of the smaller ones. */
  lemma RemovedWaitingIsUpdate(us: UserState, inputId: string, cx: Context, gone: set<Token>, t: Token)
    requires Consistent(us) && inputId in us.serviceStateMap
    requires t in us.serviceStateMap[inputId].sessionTokens && t !in gone
    requires t in us.sessionStateMap && us.sessionStateMap[t].session.None?
    ensures var s := us.sessionStateMap[t];
      var removed := RemoveSessionState(Disconnected(us, inputId, gone), t, cx);
      var u2 := UpdateServiceConnection(Disconnected(us, inputId, gone + {t}), inputId, cx);
      && removed.Success? && removed.value.us == u2.us
      && removed.value.events == (if s.logUri.Some? then [LogEntryClosed(s.logUri.value)] else []) + u2.events
  {
    var d := Disconnected(us, inputId, gone);
    DropDisconnected(us, inputId, gone, t);
    assert t in d.sessionStateMap && d.sessionStateMap[t] == us.sessionStateMap[t];
  }

  /** The connection update of the disconnected tables stays in the loop's stages and only binds. */
  lemma DisconnectedUpdateStage(us: UserState, inputId: string, cx: Context, gone: set<Token>)
    requires inputId in us.serviceStateMap
    ensures var u := UpdateServiceConnection(Disconnected(us, inputId, gone), inputId, cx);
      && DisconnectStage(us, inputId, cx, gone, u.us)
      && (u.events == [] || u.events == [BindRequested(inputId, cx.userId)])
  {
    var d := Disconnected(us, inputId, gone);
    if Without(us.serviceStateMap[inputId].sessionTokens, gone) != [] {
      assert Draining(d, inputId);
    }
    assert !UnbindWanted(d, inputId);
  }

  /** Removing one more waiting session of the service from the disconnected tables. */
  lemma DropDisconnected(us: UserState, inputId: string, gone: set<Token>, t: Token)
    requires Consistent(us) && inputId in us.serviceStateMap
    requires t in us.serviceStateMap[inputId].sessionTokens && t !in gone
    requires t in us.sessionStateMap && us.sessionStateMap[t].session.None?
    ensures DropSession(Disconnected(us, inputId, gone), t) == Disconnected(us, inputId, gone + {t})
  {
    var snapshot := us.serviceStateMap[inputId].sessionTokens;
    var d := Disconnected(us, inputId, gone);
    var d2 := Disconnected(us, inputId, gone + {t});
    var s := us.sessionStateMap[t];
    assert ServiceListOk(us, inputId);
    assert s.inputId == inputId;
    if s.client in us.clientStateMap {
      assert ClientListOk(us, s.client);
      assert t !in us.clientStateMap[s.client].sessionTokens;
    }
    ClientUntouched(us.clientStateMap, s.client, t);
    RemoveFirstWithout(snapshot, gone, t);
    MinusOneMore(us.sessionStateMap, gone, t);
    var dropped := DropSession(d, t);
    assert dropped.clientStateMap == d2.clientStateMap;
    assert dropped.sessionStateMap == d2.sessionStateMap;
    assert dropped.serviceStateMap == d2.serviceStateMap by {
      assert dropped.serviceStateMap - {inputId} == d2.serviceStateMap - {inputId};
      SameOutsideAndAt(dropped.serviceStateMap, d2.serviceStateMap, inputId);
    }
  }

  /** Dropping a token its client does not list leaves the client table as it is. */
  lemma ClientUntouched(clients: map<Token, ClientState>, c: Token, token: Token)
    requires c in clients ==> token !in clients[c].sessionTokens && !IsEmpty(clients[c])
    ensures WithoutClientSession(clients, c, token) == clients
  {
    if c in clients {
      assert clients[c].(sessionTokens := RemoveFirst(clients[c].sessionTokens, token)) == clients[c];
      SameOutsideAndAt(WithoutClientSession(clients, c, token), clients, c);
    }
  }

  /** Taking one more key out of a map minus a set is taking out the larger set. */
  lemma MinusOneMore<K, V>(m: map<K, V>, gone: set<K>, k: K)
    ensures (m - gone) - {k} == m - (gone + {k})
  {
    var a := (m - gone) - {k};
    var b := m - (gone + {k});
    assert a.Keys == b.Keys;
    forall x | x in a.Keys
      ensures a[x] == b[x]
    {
    }
  }

  /**
   * The session loop of onServiceDisconnected has looked at the first i
   * tokens of the snapshot: the tables are at the matching stage, and every
   * waiting session among them, and nothing else, got its null answer.
   */
  ghost predicate Answered(us: UserState, inputId: string, cx: Context, i: int, cur: UserState,
                           calls: seq<ServerEvent>)
  {
    && inputId in us.serviceStateMap
    && 0 <= i <= |us.serviceStateMap[inputId].sessionTokens|
    && var gone := PendingIn(us.sessionStateMap, us.serviceStateMap[inputId].sessionTokens[..i]);
    && DisconnectStage(us, inputId, cx, gone, cur)
    && (forall t | t in gone :: t in us.sessionStateMap && NullReply(us.sessionStateMap[t]) in calls)
    && |Replies(calls)| == |gone|
    && DisconnectEvents(calls, inputId, cx)
  }

  /** One round of the session loop keeps Answered, one token further. */
  lemma AnsweredStep(us: UserState, inputId: string, cx: Context, i: int, cur: UserState,
                     calls: seq<ServerEvent>, step: Step)
    requires Consistent(us) && Answered(us, inputId, cx, i, cur, calls)
    requires i < |us.serviceStateMap[inputId].sessionTokens|
    requires var t := us.serviceStateMap[inputId].sessionTokens[i];
      && (t in cur.sessionStateMap && cur.sessionStateMap[t].session.None? ==>
            && step.us == RemoveSessionState(cur, t, cx).value.us
            && step.events == RemoveSessionState(cur, t, cx).value.events + [NullReply(cur.sessionStateMap[t])])
      && (!(t in cur.sessionStateMap && cur.sessionStateMap[t].session.None?) ==> step == Step(cur, []))
    ensures Answered(us, inputId, cx, i + 1, step.us, calls + step.events)
  {
    var snapshot := us.serviceStateMap[inputId].sessionTokens;
    var t := snapshot[i];
    DisconnectRound(us, inputId, cx, i, cur);
    if t in cur.sessionStateMap && cur.sessionStateMap[t].session.None? {
      AnsweredWaiting(us, inputId, cx, i, cur, calls, RemoveSessionState(cur, t, cx).value);
    } else {
      assert calls + step.events == calls;
    }
  }

  /** The round of AnsweredStep for a token still waiting for its backend. */
  lemma AnsweredWaiting(us: UserState, inputId: string, cx: Context, i: int, cur: UserState,
                        calls: seq<ServerEvent>, removed: Step)
    requires Answered(us, inputId, cx, i, cur, calls)
    requires i < |us.serviceStateMap[inputId].sessionTokens|
    requires var snapshot := us.serviceStateMap[inputId].sessionTokens;
      var t := snapshot[i];
      var gone := PendingIn(us.sessionStateMap, snapshot[..i]);
      && t !in gone && t in us.sessionStateMap && t in cur.sessionStateMap
      && cur.sessionStateMap[t] == us.sessionStateMap[t]
      && PendingIn(us.sessionStateMap, snapshot[..i + 1]) == gone + {t}
      && DisconnectStage(us, inputId, cx, gone + {t}, removed.us)
      && DisconnectEvents(removed.events, inputId, cx)
      && Replies(removed.events) == []
    ensures var t := us.serviceStateMap[inputId].sessionTokens[i];
      Answered(us, inputId, cx, i + 1, removed.us, calls + (removed.events + [NullReply(cur.sessionStateMap[t])]))
  {
    var snapshot := us.serviceStateMap[inputId].sessionTokens;
    var t := snapshot[i];
    var gone := PendingIn(us.sessionStateMap, snapshot[..i]);
    WaitingReplied(calls, removed.events, gone, t, us.sessionStateMap, inputId, cx);
  }

  /**
   * The event list of that round: the clients answered before and the one
   * answered now each have their null reply, one reply per answered token.
   */
  lemma WaitingReplied(calls: seq<ServerEvent>, evs: seq<ServerEvent>, gone: set<Token>, t: Token,
                       sessions: map<Token, SessionState>, inputId: string, cx: Context)
    requires forall u | u in gone :: u in sessions && NullReply(sessions[u]) in calls
    requires |Replies(calls)| == |gone| && t !in gone && t in sessions
    requires DisconnectEvents(calls, inputId, cx) && DisconnectEvents(evs, inputId, cx) && Replies(evs) == []
    ensures var after := calls + (evs + [NullReply(sessions[t])]);
      && (forall u | u in gone + {t} :: u in sessions && NullReply(sessions[u]) in after)
      && |Replies(after)| == |gone + {t}|
      && DisconnectEvents(after, inputId, cx)
  {
    var reply := NullReply(sessions[t]);
    var added := evs + [reply];
    ReplyAdded(calls, evs, reply);
    DisconnectEventsAppend(evs, [reply], inputId, cx);
    DisconnectEventsAppend(calls, added, inputId, cx);
  }

  /** Appending a round that answers one client adds that one answer. */
  lemma ReplyAdded(calls: seq<ServerEvent>, evs: seq<ServerEvent>, reply: ServerEvent)
    requires Replies(evs) == [] && reply.SessionTokenSent?
    ensures Replies(calls + (evs + [reply])) == Replies(calls) + [reply]
    ensures reply in calls + (evs + [reply])
    ensures forall e | e in calls :: e in calls + (evs + [reply])
  {
    var tail := evs + [reply];
    assert Replies(tail) == [reply] by {
      RepliesAppend(evs, [reply]);
      assert Replies([reply]) == [reply] by {
        assert [reply][1..] == [];
      }
    }
    RepliesAppend(calls, tail);
    EndsWith(calls, evs, reply);
  }

  /** What was sent before stays in the list, and the last event is in it. */
  lemma EndsWith(calls: seq<ServerEvent>, evs: seq<ServerEvent>, reply: ServerEvent)
    ensures reply in calls + (evs + [reply])
    ensures forall e | e in calls :: e in calls + (evs + [reply])
  {
    var after := calls + (evs + [reply]);
    assert after[|after| - 1] == reply;
  }

  /** The events of two parts of the loop are events of the loop. */
  lemma DisconnectEventsAppend(a: seq<ServerEvent>, b: seq<ServerEvent>, inputId: string, cx: Context)
    requires DisconnectEvents(a, inputId, cx) && DisconnectEvents(b, inputId, cx)
    ensures DisconnectEvents(a + b, inputId, cx)
  {
    assert forall e | e in a + b :: e in a || e in b;
  }

  /**
   * InputServiceConnection.onServiceDisconnected for a user that exists,
   * with the session loop iterating a snapshot of the service's list: the
   * service is marked reconnecting, unbound and without backend or
   * callback; every session still waiting for the backend is removed and
   * its client answered with a null token; every callback hears that the
   * input is disconnected; then the connection is updated.
   */
  method ServiceDisconnectedLocked(us: UserState, inputId: string, cx: Context) returns (r: Step)
    requires Consistent(us)
    ensures inputId !in us.serviceStateMap ==> r == Step(us, [])
    ensures inputId in us.serviceStateMap ==>
      && var pending := PendingIn(us.sessionStateMap, us.serviceStateMap[inputId].sessionTokens);
      && r.us == UpdateServiceConnection(Disconnected(us, inputId, pending), inputId, cx).us
      && r.us.sessionStateMap == us.sessionStateMap - pending
      && r.us.clientStateMap == us.clientStateMap
      && r.us.serviceStateMap - {inputId} == us.serviceStateMap - {inputId}
      && |Replies(r.events)| == |pending|
      && (forall t | t in pending :: NullReply(us.sessionStateMap[t]) in r.events)
      && (forall e | e in r.events ::
            || (e.SessionTokenSent? && e.token.None?)
            || e.LogEntryClosed?
            || e == BindRequested(inputId, cx.userId)
            || (e.StateChangeSent? && e.callback in us.callbackSet && e.inputId == inputId
                && e.state == INPUT_STATE_DISCONNECTED))
      && (forall t | t in r.us.sessionStateMap && r.us.sessionStateMap[t].inputId == inputId ::
            r.us.sessionStateMap[t].session.Some?)
      && (forall cb | cb in us.callbackSet :: StateChangeSent(cb, inputId, INPUT_STATE_DISCONNECTED) in r.events)
      && inputId in r.us.serviceStateMap
      && r.us.serviceStateMap[inputId].service.None? && !r.us.serviceStateMap[inputId].hasCallback
    ensures r.us.inputMap == us.inputMap && r.us.callbackSet == us.callbackSet
    ensures Consistent(r.us)
  {
    if inputId !in us.serviceStateMap {
      return Step(us, []);
    }
    var ss := us.serviceStateMap[inputId];
    var snapshot := ss.sessionTokens;
    var ss1 := ss.(reconnecting := true, bound := false, service := None, hasCallback := false);
    BindingConsistent(us, inputId, ss1);
    var cur := us.(serviceStateMap := us.serviceStateMap[inputId := ss1]);
    DisconnectStart(us, inputId, cx);
    var calls: seq<ServerEvent> := [];
    for i := 0 to |snapshot|
      invariant Consistent(cur)
      invariant Answered(us, inputId, cx, i, cur, calls)
    {
      var step := AnswerPending(cur, snapshot[i], cx);
      AnsweredStep(us, inputId, cx, i, cur, calls, step);
      cur := step.us;
      calls := calls + step.events;
    }
    var sent := BroadcastStateChange(us.callbackSet, inputId, INPUT_STATE_DISCONNECTED);
    var u := UpdateServiceConnection(cur, inputId, cx);
    DisconnectFinish(us, inputId, cx, cur, calls, sent);
    return Step(u.us, calls + sent + u.events);
  }

  /** Before the session loop: nothing answered, the service marked disconnected. */
  lemma DisconnectStart(us: UserState, inputId: string, cx: Context)
    requires inputId in us.serviceStateMap
    ensures var ss := us.serviceStateMap[inputId];
      Answered(us, inputId, cx, 0,
               us.(serviceStateMap := us.serviceStateMap[inputId :=
                     ss.(reconnecting := true, bound := false, service := None, hasCallback := false)]), [])
  {
    var snapshot := us.serviceStateMap[inputId].sessionTokens;
    WithoutNothing(snapshot);
    assert us.sessionStateMap - {} == us.sessionStateMap;
    assert snapshot[..0] == [] && PendingIn(us.sessionStateMap, snapshot[..0]) == {};
    assert Replies([]) == [];
  }

  /**
   * After the session loop: the state broadcast and the final connection
   * update give the disconnected tables with the connection updated once.
   */
  lemma DisconnectFinish(us: UserState, inputId: string, cx: Context, cur: UserState,
                         calls: seq<ServerEvent>, sent: seq<ServerEvent>)
    requires Consistent(us) && inputId in us.serviceStateMap
    requires Answered(us, inputId, cx, |us.serviceStateMap[inputId].sessionTokens|, cur, calls)
    requires Broadcast(sent, us.callbackSet, inputId, INPUT_STATE_DISCONNECTED)
    ensures var r := Step(UpdateServiceConnection(cur, inputId, cx).us,
                          calls + sent + UpdateServiceConnection(cur, inputId, cx).events);
      && var pending := PendingIn(us.sessionStateMap, us.serviceStateMap[inputId].sessionTokens);
      && r.us == UpdateServiceConnection(Disconnected(us, inputId, pending), inputId, cx).us
      && r.us.sessionStateMap == us.sessionStateMap - pending
      && r.us.clientStateMap == us.clientStateMap
      && r.us.serviceStateMap - {inputId} == us.serviceStateMap - {inputId}
      && |Replies(r.events)| == |pending|
      && (forall t | t in pending :: NullReply(us.sessionStateMap[t]) in r.events)
      && (forall e | e in r.events ::
            || (e.SessionTokenSent? && e.token.None?)
            || e.LogEntryClosed?
            || e == BindRequested(inputId, cx.userId)
            || (e.StateChangeSent? && e.callback in us.callbackSet && e.inputId == inputId
                && e.state == INPUT_STATE_DISCONNECTED))
      && (forall t | t in r.us.sessionStateMap && r.us.sessionStateMap[t].inputId == inputId ::
            r.us.sessionStateMap[t].session.Some?)
      && (forall cb | cb in us.callbackSet :: StateChangeSent(cb, inputId, INPUT_STATE_DISCONNECTED) in r.events)
      && inputId in r.us.serviceStateMap
      && r.us.serviceStateMap[inputId].service.None? && !r.us.serviceStateMap[inputId].hasCallback
  {
    var snapshot := us.serviceStateMap[inputId].sessionTokens;
    assert snapshot[..|snapshot|] == snapshot;
    var pending := PendingIn(us.sessionStateMap, snapshot);
    var u := UpdateServiceConnection(cur, inputId, cx);
    UpdateSettles(Disconnected(us, inputId, pending), inputId, cx);
    assert u.us == UpdateServiceConnection(Disconnected(us, inputId, pending), inputId, cx).us;
    forall t | t in u.us.sessionStateMap && u.us.sessionStateMap[t].inputId == inputId
      ensures u.us.sessionStateMap[t].session.Some?
    {
      assert SessionListed(us, t);
    }
    assert !UnbindWanted(cur, inputId);
    assert |Replies(calls)| == |pending|;
    assert Replies(sent) == [] && Replies(u.events) == [];
    RepliesAppend(calls, sent);
    RepliesAppend(calls + sent, u.events);
    assert forall e | e in calls :: e in calls + sent + u.events;
    assert forall e | e in sent :: e in calls + sent + u.events;
  }

  // ---------------------------------------------------------------------
  // buildTvInputListLocked
  // ---------------------------------------------------------------------

  /**
   * The input map buildTvInputListLocked builds from the discovered inputs:
   * an input seen before keeps its state, a new one starts connected, and an
   * input no longer discovered is dropped.
   */
  function RebuiltInputMap(previous: map<string, int>, discovered: seq<string>): (m: map<string, int>)
    ensures forall id :: id in m <==> id in discovered
    ensures forall id | id in m && id in previous :: m[id] == previous[id]
    ensures forall id | id in m && id !in previous :: m[id] == INPUT_STATE_CONNECTED
  {
    map id | id in discovered :: if id in previous then previous[id] else INPUT_STATE_CONNECTED
  }

  /** Both maps hold the same entry for id, or neither holds one. */
  ghost predicate SameEntry(a: map<string, ServiceState>, b: map<string, ServiceState>, id: string)
  {
    (id in a <==> id in b) && (id in a ==> a[id] == b[id])
  }

  /** updateServiceConnectionLocked looks only at the entry of its own input. */
  lemma UpdateLocal(a: UserState, b: UserState, id: string, cx: Context)
    requires SameEntry(a.serviceStateMap, b.serviceStateMap, id)
    ensures SameEntry(UpdateServiceConnection(a, id, cx).us.serviceStateMap,
                      UpdateServiceConnection(b, id, cx).us.serviceStateMap, id)
    ensures UpdateServiceConnection(a, id, cx).events == UpdateServiceConnection(b, id, cx).events
    ensures BindWanted(a, id, cx) == BindWanted(b, id, cx) && UnbindWanted(a, id) == UnbindWanted(b, id)
  {
  }

  /**
   * The service loop of buildTvInputListLocked after the inputs in done:
   * each of them has the entry one connection update of the starting
   * tables gives it, and every other input keeps its entry.
   */
  ghost predicate EntriesRebuilt(start: UserState, done: seq<string>, cx: Context, cur: UserState)
  {
    && cur.inputMap == start.inputMap && cur.clientStateMap == start.clientStateMap
    && cur.sessionStateMap == start.sessionStateMap && cur.callbackSet == start.callbackSet
    && (forall id | id !in done :: SameEntry(cur.serviceStateMap, start.serviceStateMap, id))
    && (forall id | id in done ::
          SameEntry(cur.serviceStateMap, UpdateServiceConnection(start, id, cx).us.serviceStateMap, id))
  }

  /** The calls of the service loop after the inputs in done: exactly the binds and unbinds they needed. */
  ghost predicate CallsRebuilt(start: UserState, discovered: seq<string>, done: seq<string>, cx: Context,
                               calls: seq<ServerEvent>)
  {
    && (forall id | id in done && BindWanted(start, id, cx) :: BindRequested(id, cx.userId) in calls)
    && (forall id | id in done && UnbindWanted(start, id) :: UnbindRequested(id) in calls)
    && (forall e | e in calls ::
          (e.BindRequested? && e.inputId in discovered && e.userId == cx.userId)
          || (e.UnbindRequested? && e.inputId in discovered))
  }

  lemma EntriesStep(start: UserState, done: seq<string>, id0: string, cx: Context, cur: UserState)
    requires EntriesRebuilt(start, done, cx, cur)
    ensures EntriesRebuilt(start, done + [id0], cx, UpdateServiceConnection(cur, id0, cx).us)
    ensures id0 !in done ==>
      UpdateServiceConnection(cur, id0, cx).events == UpdateServiceConnection(start, id0, cx).events
  {
    var u := UpdateServiceConnection(cur, id0, cx);
    var first := UpdateServiceConnection(start, id0, cx);
    if id0 in done {
      EntryAgain(start, cur, id0, cx);
    } else {
      UpdateLocal(cur, start, id0, cx);
    }
    OthersKept(cur, id0, cx);
    forall id | id !in done + [id0]
      ensures SameEntry(u.us.serviceStateMap, start.serviceStateMap, id)
    {
      assert SameEntry(u.us.serviceStateMap, cur.serviceStateMap, id);
    }
    forall id | id in done + [id0]
      ensures SameEntry(u.us.serviceStateMap, UpdateServiceConnection(start, id, cx).us.serviceStateMap, id)
    {
      if id != id0 {
        assert SameEntry(u.us.serviceStateMap, cur.serviceStateMap, id);
      }
    }
  }

  /** Updating a connection touches no other input's entry. */
  lemma OthersKept(cur: UserState, id0: string, cx: Context)
    ensures forall id | id != id0 ::
      SameEntry(UpdateServiceConnection(cur, id0, cx).us.serviceStateMap, cur.serviceStateMap, id)
  {
    var u := UpdateServiceConnection(cur, id0, cx);
    forall id | id != id0
      ensures SameEntry(u.us.serviceStateMap, cur.serviceStateMap, id)
    {
      if id in cur.serviceStateMap {
        assert cur.serviceStateMap[id] == (cur.serviceStateMap - {id0})[id];
      }
      if id in u.us.serviceStateMap {
        assert u.us.serviceStateMap[id] == (u.us.serviceStateMap - {id0})[id];
      }
    }
  }

  /** An entry already updated is left as it is by a second update. */
  lemma EntryAgain(start: UserState, cur: UserState, id0: string, cx: Context)
    requires SameEntry(cur.serviceStateMap, UpdateServiceConnection(start, id0, cx).us.serviceStateMap, id0)
    ensures SameEntry(UpdateServiceConnection(cur, id0, cx).us.serviceStateMap,
                      UpdateServiceConnection(start, id0, cx).us.serviceStateMap, id0)
  {
    UpdateLocal(cur, UpdateServiceConnection(start, id0, cx).us, id0, cx);
    UpdateSettles(start, id0, cx);
  }

  lemma CallsStep(start: UserState, discovered: seq<string>, done: seq<string>, id0: string, cx: Context,
                  calls: seq<ServerEvent>, added: seq<ServerEvent>)
    requires CallsRebuilt(start, discovered, done, cx, calls) && id0 in discovered
    requires id0 !in done ==> added == UpdateServiceConnection(start, id0, cx).events
    requires added == [] || added == [BindRequested(id0, cx.userId)] || added == [UnbindRequested(id0)]
    ensures CallsRebuilt(start, discovered, done + [id0], cx, calls + added)
  {
    var after := calls + added;
    if id0 !in done {
      if BindWanted(start, id0, cx) {
        assert after[|calls|] == BindRequested(id0, cx.userId);
      }
      if UnbindWanted(start, id0) {
        assert after[|calls|] == UnbindRequested(id0);
      }
    }
    assert forall e | e in calls :: e in after;
  }

  /**
   * buildTvInputListLocked, with the package manager's answer given as the
   * ids of the inputs it discovered, in order (services without the bind
   * permission or with unreadable metadata already skipped): the input map
   * is rebuilt, and the connection of every discovered input is updated, so
   * a service that is wanted and not bound is bound and one no longer wanted
   * is unbound. The input map is set before the loop; the connection update
   * never reads it.
   */
  method BuildTvInputList(us: UserState, discovered: seq<string>, cx: Context) returns (r: Step)
    requires Consistent(us)
    ensures Consistent(r.us)
    ensures r.us.inputMap == RebuiltInputMap(us.inputMap, discovered)
    ensures r.us.clientStateMap == us.clientStateMap && r.us.sessionStateMap == us.sessionStateMap
    ensures r.us.callbackSet == us.callbackSet
    ensures forall id | id !in discovered :: SameEntry(r.us.serviceStateMap, us.serviceStateMap, id)
    ensures forall id | id in discovered ::
      SameEntry(r.us.serviceStateMap, UpdateServiceConnection(us, id, cx).us.serviceStateMap, id)
    ensures forall id | id in discovered && BindWanted(us, id, cx) :: BindRequested(id, cx.userId) in r.events
    ensures forall id | id in discovered && UnbindWanted(us, id) :: UnbindRequested(id) in r.events
    ensures forall e | e in r.events ::
      (e.BindRequested? && e.inputId in discovered && e.userId == cx.userId)
      || (e.UnbindRequested? && e.inputId in discovered)
  {
    var start := us.(inputMap := RebuiltInputMap(us.inputMap, discovered));
    SameTablesConsistent(us, start);
    var cur := start;
    var calls: seq<ServerEvent> := [];
    assert discovered[..0] == [];
    for i := 0 to |discovered|
      invariant Consistent(cur)
      invariant EntriesRebuilt(start, discovered[..i], cx, cur)
      invariant CallsRebuilt(start, discovered, discovered[..i], cx, calls)
    {
      assert discovered[..i + 1] == discovered[..i] + [discovered[i]];
      EntriesStep(start, discovered[..i], discovered[i], cx, cur);
      var u := UpdateServiceConnection(cur, discovered[i], cx);
      CallsStep(start, discovered, discovered[..i], discovered[i], cx, calls, u.events);
      cur := u.us;
      calls := calls + u.events;
    }
    assert discovered[..|discovered|] == discovered;
    forall id | id in discovered
      ensures SameEntry(cur.serviceStateMap, UpdateServiceConnection(us, id, cx).us.serviceStateMap, id)
      ensures BindWanted(us, id, cx) == BindWanted(start, id, cx) && UnbindWanted(us, id) == UnbindWanted(start, id)
    {
      UpdateLocal(start, us, id, cx);
    }
    return Step(cur, calls);
  }

  /** The backend sessions of the sessions that have one. */
  ghost function BackendSessions(sessions: map<Token, SessionState>): set<Token>
  {
    set t | t in sessions && sessions[t].session.Some? :: sessions[t].session.value
  }

  /** Every backend session is released, and nothing else is called. */
  ghost predicate ReleasesAll(calls: seq<ServerEvent>, sessions: map<Token, SessionState>)
  {
    && (forall t | t in sessions && sessions[t].session.Some? :: BackendSessionReleased(sessions[t].session.value) in calls)
    && (forall e | e in calls :: e.BackendSessionReleased? && e.session in BackendSessions(sessions))
  }

  /** Every service is unbound, every one with a state callback has it unregistered, and nothing else is called. */
  ghost predicate TearsDown(calls: seq<ServerEvent>, services: map<string, ServiceState>)
  {
    && (forall id | id in services :: UnbindRequested(id) in calls)
    && (forall id | id in services && services[id].hasCallback :: BackendCallbackUnregistered(id) in calls)
    && (forall e | e in calls ::
          (e.UnbindRequested? && e.inputId in services)
          || (e.BackendCallbackUnregistered? && e.inputId in services && services[e.inputId].hasCallback))
  }

  /** The first loop of removeUser: every created session is released. */
  method ReleaseBackendSessions(sessions: map<Token, SessionState>) returns (calls: seq<ServerEvent>)
    ensures ReleasesAll(calls, sessions)
  {
    calls := [];
    var left := sessions.Keys;
    while left != {}
      invariant left <= sessions.Keys
      invariant forall t | t in sessions.Keys - left && sessions[t].session.Some? ::
        BackendSessionReleased(sessions[t].session.value) in calls
      invariant forall e | e in calls :: e.BackendSessionReleased? && e.session in BackendSessions(sessions)
      decreases |left|
    {
      ghost var member := SomeMember(left);  // the witness for the choice below
      var t :| t in left;
      if sessions[t].session.Some? {
        calls := calls + [BackendSessionReleased(sessions[t].session.value)];
      }
      left := left - {t};
    }
    assert sessions.Keys - left == sessions.Keys;
  }

  /** The second loop of removeUser: every service drops its callback and is unbound. */
  method TearDownServices(services: map<string, ServiceState>) returns (calls: seq<ServerEvent>)
    ensures TearsDown(calls, services)
  {
    calls := [];
    var left := services.Keys;
    while left != {}
      invariant left <= services.Keys
      invariant forall id | id in services.Keys - left :: UnbindRequested(id) in calls
      invariant forall id | id in services.Keys - left && services[id].hasCallback ::
        BackendCallbackUnregistered(id) in calls
      invariant forall e | e in calls ::
        (e.UnbindRequested? && e.inputId in services)
        || (e.BackendCallbackUnregistered? && e.inputId in services && services[e.inputId].hasCallback)
      decreases |left|
    {
      ghost var member := SomeMember(left);  // the witness for the choice below
      var id :| id in left;
      if services[id].hasCallback {
        calls := calls + [BackendCallbackUnregistered(id)];
      }
      calls := calls + [UnbindRequested(id)];
      left := left - {id};
    }
    assert services.Keys - left == services.Keys;
  }

  /**
   * What rebuilding the input list did to one user's tables and to the log:
   * the input map is rebuilt, the other tables are kept, every discovered
   * input's service entry is the one a connection update gives it (bound
   * when wanted and not bound, forgotten when no longer wanted), the other
   * entries are kept, and the log grew by exactly those bind and unbind
   * requests.
   */
  ghost predicate Rebuilds(before: UserState, after: UserState, discovered: seq<string>, cx: Context,
                           log0: seq<ServerEvent>, log: seq<ServerEvent>)
  {
    && after.inputMap == RebuiltInputMap(before.inputMap, discovered)
    && after.clientStateMap == before.clientStateMap && after.sessionStateMap == before.sessionStateMap
    && after.callbackSet == before.callbackSet
    && (forall id | id !in discovered :: SameEntry(after.serviceStateMap, before.serviceStateMap, id))
    && (forall id | id in discovered ::
          SameEntry(after.serviceStateMap, UpdateServiceConnection(before, id, cx).us.serviceStateMap, id))
    && |log0| <= |log| && log[..|log0|] == log0
    && (forall id | id in discovered && BindWanted(before, id, cx) :: BindRequested(id, cx.userId) in log[|log0|..])
    && (forall id | id in discovered && UnbindWanted(before, id) :: UnbindRequested(id) in log[|log0|..])
    && (forall e | e in log[|log0|..] ::
          (e.BindRequested? && e.inputId in discovered && e.userId == cx.userId)
          || (e.UnbindRequested? && e.inputId in discovered))
  }

  class TvInputManagerService {
    var currentUserId: int
    var userStates: map<int, UserState>
    /** The outbound calls made so far. */
    var events: seq<ServerEvent>
    /** The next fresh session token. */
    var nextToken: Token
    /** What bindServiceAsUser answers. */
    const bindSucceeds: bool

    ghost predicate Valid()
      reads this
    {
      AllValid(userStates, nextToken)
    }

    function Cx(userId: int): (cx: Context)
      reads this
      ensures cx.userId == userId && cx.currentUserId == currentUserId && cx.bindSucceeds == bindSucceeds
    {
      Context(userId, currentUserId, bindSucceeds)
    }

    /** The service starts with the owner's tables; its input list is the one discovered at boot. */
    constructor(inputs: map<string, int>, bindSucceeds: bool)
      ensures Valid()
      ensures currentUserId == USER_OWNER && userStates == map[USER_OWNER := NewUserState(inputs)]
      ensures events == [] && this.bindSucceeds == bindSucceeds
    {
      currentUserId := USER_OWNER;
      userStates := map[USER_OWNER := NewUserState(inputs)];
      events := [];
      nextToken := 0;
      this.bindSucceeds := bindSucceeds;
      EmptyUserConsistent(inputs);
    }

    /**
     * switchUser: a switch to the current user does nothing; otherwise the
     * user becomes current, with fresh tables if it had none, and its input
     * list is rebuilt from what the package manager now discovers.
     */
    method SwitchUser(userId: int, discovered: seq<string>)
      requires Valid()
      modifies this`currentUserId, this`userStates, this`events
      ensures Valid()
      ensures currentUserId == userId
      ensures old(currentUserId) == userId ==> userStates == old(userStates) && events == old(events)
      ensures old(currentUserId) != userId ==>
        && var base := if userId in old(userStates) then old(userStates)[userId] else NewUserState(map[]);
        && userId in userStates && userStates - {userId} == old(userStates) - {userId}
        && Rebuilds(base, userStates[userId], discovered, Cx(userId), old(events), events)
    {
      if currentUserId == userId {
        return;
      }
      currentUserId := userId;
      if userId !in userStates {
        EmptyUserConsistent(map[]);
        userStates := userStates[userId := NewUserState(map[])];
      }
      RebuildInputList(userId, discovered);
    }

    /**
     * The package monitor's onSomePackagesChanged: the current user's input
     * list is rebuilt; the user's tables must exist.
     */
    method OnSomePackagesChanged(discovered: seq<string>) returns (outcome: Outcome)
      requires Valid()
      modifies this`userStates, this`events
      ensures Valid()
      ensures currentUserId !in old(userStates) ==>
        outcome == Thrown(IllegalStateException) && userStates == old(userStates) && events == old(events)
      ensures currentUserId in old(userStates) ==>
        && outcome == Done
        && currentUserId in userStates && userStates - {currentUserId} == old(userStates) - {currentUserId}
        && Rebuilds(old(userStates)[currentUserId], userStates[currentUserId], discovered, Cx(currentUserId),
                    old(events), events)
    {
      if currentUserId !in userStates {
        return Thrown(IllegalStateException);
      }
      RebuildInputList(currentUserId, discovered);
      return Done;
    }

    /** buildTvInputListLocked for a user whose tables exist. */
    method RebuildInputList(userId: int, discovered: seq<string>)
      requires Valid() && userId in userStates
      modifies this`userStates, this`events
      ensures Valid()
      ensures userId in userStates && userStates - {userId} == old(userStates) - {userId}
      ensures Rebuilds(old(userStates)[userId], userStates[userId], discovered, Cx(userId), old(events), events)
    {
      var us := userStates[userId];
      var r := BuildTvInputList(us, discovered, Cx(userId));
      OwnedAfterRemoval(us, r.us, userId, nextToken, {});
      UpdateUserValid(userStates, nextToken, userId, r.us);
      UpdateOutside(userStates, userId, r.us);
      userStates := userStates[userId := r.us];
      events := events + r.events;
      assert events[|old(events)|..] == r.events;
    }

    /**
     * notifyStateChangedLocked: to the target callback only when there is
     * one, else to every registered callback.
     */
    method NotifyStateChangedLocked(callbacks: set<Token>, inputId: string, state: int, target: Option<Token>)
      modifies this`events
      ensures target.Some? ==> events == old(events) + [StateChangeSent(target.value, inputId, state)]
      ensures target.None? ==>
        |old(events)| <= |events| && events[..|old(events)|] == old(events)
        && Broadcast(events[|old(events)|..], callbacks, inputId, state)
    {
      if target.Some? {
        events := events + [StateChangeSent(target.value, inputId, state)];
      } else {
        var sent := BroadcastStateChange(callbacks, inputId, state);
        events := events + sent;
        assert events[|old(events)|..] == sent;
      }
    }

    /**
     * registerCallback: the callback joins the set and is told the state of
     * every input; no other callback hears of it.
     */
    method RegisterCallback(callback: Token, userId: int) returns (outcome: Outcome)
      requires Valid()
      modifies this`userStates, this`events
      ensures Valid()
      ensures userId !in old(userStates) ==>
        outcome == Thrown(IllegalStateException) && userStates == old(userStates) && events == old(events)
      ensures userId in old(userStates) ==>
        && outcome == Done
        && var us := old(userStates)[userId];
        && userStates == old(userStates)[userId := us.(callbackSet := us.callbackSet + {callback})]
        && |old(events)| <= |events| && events[..|old(events)|] == old(events)
        && Replay(events[|old(events)|..], callback, us.inputMap)
    {
      if userId !in userStates {
        return Thrown(IllegalStateException);
      }
      var us := userStates[userId];
      SameTablesConsistent(us, us.(callbackSet := us.callbackSet + {callback}));
      UpdateUserValid(userStates, nextToken, userId, us.(callbackSet := us.callbackSet + {callback}));
      userStates := userStates[userId := us.(callbackSet := us.callbackSet + {callback})];
      var replayed := ReplayInputStates(callback, us.inputMap);
      events := events + replayed;
      assert events[|old(events)|..] == replayed;
      return Done;
    }

    /** unregisterCallback: the callback leaves the set. */
    method UnregisterCallback(callback: Token, userId: int) returns (outcome: Outcome)
      requires Valid()
      modifies this`userStates
      ensures Valid()
      ensures userId !in old(userStates) ==>
        outcome == Thrown(IllegalStateException) && userStates == old(userStates)
      ensures userId in old(userStates) ==>
        && outcome == Done
        && var us := old(userStates)[userId];
        && userStates == old(userStates)[userId := us.(callbackSet := us.callbackSet - {callback})]
    {
      if userId !in userStates {
        return Thrown(IllegalStateException);
      }
      var us := userStates[userId];
      SameTablesConsistent(us, us.(callbackSet := us.callbackSet - {callback}));
      UpdateUserValid(userStates, nextToken, userId, us.(callbackSet := us.callbackSet - {callback}));
      userStates := userStates[userId := us.(callbackSet := us.callbackSet - {callback})];
      return Done;
    }

    /**
     * setStateLocked, as the service callback's onInputStateChanged calls
     * it: an input missing from the input map throws NullPointerException
     * before anything changes; the state is recorded, then an input with no
     * service state throws NullPointerException; the change is broadcast
     * when the state differs, unless the service is awaited.
     */
    method SetStateLocked(inputId: string, state: int, userId: int) returns (outcome: Outcome)
      requires Valid()
      modifies this`userStates, this`events
      ensures Valid()
      ensures userId !in old(userStates) ==>
        outcome == Thrown(IllegalStateException) && userStates == old(userStates) && events == old(events)
      ensures userId in old(userStates) && inputId !in old(userStates)[userId].inputMap ==>
        outcome == Thrown(NullPointerException) && userStates == old(userStates) && events == old(events)
      ensures userId in old(userStates) && inputId in old(userStates)[userId].inputMap ==>
        && var us := old(userStates)[userId];
        && userStates == old(userStates)[userId := us.(inputMap := us.inputMap[inputId := state])]
        && (inputId !in us.serviceStateMap ==> outcome == Thrown(NullPointerException) && events == old(events))
        && (inputId in us.serviceStateMap ==>
              && outcome == Done
              && var silent := AwaitingService(us.serviceStateMap[inputId]) || us.inputMap[inputId] == state;
              && (silent ==> events == old(events))
              && (!silent ==>
                    |old(events)| <= |events| && events[..|old(events)|] == old(events)
                    && Broadcast(events[|old(events)|..], us.callbackSet, inputId, state)))
    {
      if userId !in userStates {
        return Thrown(IllegalStateException);
      }
      var us := userStates[userId];
      if inputId !in us.inputMap {
        return Thrown(NullPointerException);
      }
      var oldState := us.inputMap[inputId];
      var us1 := us.(inputMap := us.inputMap[inputId := state]);
      SameTablesConsistent(us, us1);
      UpdateUserValid(userStates, nextToken, userId, us1);
      userStates := userStates[userId := us1];
      if inputId !in us.serviceStateMap {
        return Thrown(NullPointerException);
      }
      if AwaitingService(us.serviceStateMap[inputId]) {
        return Done;
      }
      if oldState != state {
        NotifyStateChangedLocked(us.callbackSet, inputId, state, None);
      }
      return Done;
    }

    /**
     * createSession: the user must exist; the locked part runs with the next
     * fresh token, and its calls are made in order.
     */
    method CreateSession(client: Token, inputId: string, seqNum: int, callingUid: int, userId: int)
      returns (outcome: Outcome)
      requires Valid()
      modifies this`userStates, this`events, this`nextToken
      ensures Valid()
      ensures userId !in old(userStates) ==>
        outcome == Thrown(IllegalStateException) && userStates == old(userStates) && events == old(events)
      ensures userId in old(userStates) ==>
        && old(nextToken) !in old(userStates)[userId].sessionStateMap
        && var r := CreateSessionLocked(old(userStates)[userId], client, inputId, seqNum, callingUid,
                                        old(nextToken), old(Cx(userId)));
        && (r.Failure? ==> outcome == Thrown(r.error) && userStates == old(userStates) && events == old(events))
        && (r.Success? ==> outcome == Done && userStates == old(userStates)[userId := r.value.us]
                           && events == old(events) + r.value.events)
    {
      if userId !in userStates {
        return Thrown(IllegalStateException);
      }
      var us := userStates[userId];
      var token := nextToken;
      var r := CreateSessionLocked(us, client, inputId, seqNum, callingUid, token, Cx(userId));
      if r.Failure? {
        return Thrown(r.error);
      }
      BumpValid(userStates, nextToken);
      UpdateUserValid(userStates, nextToken + 1, userId, r.value.us);
      userStates := userStates[userId := r.value.us];
      nextToken := nextToken + 1;
      events := events + r.value.events;
      return Done;
    }

    /** releaseSession: the lookup's exceptions, or the session released and its state removed. */
    method ReleaseSession(token: Token, callingUid: int, userId: int) returns (outcome: Outcome)
      requires Valid()
      modifies this`userStates, this`events
      ensures Valid()
      ensures var r := ReleaseSessionLocked(old(userStates), token, callingUid, old(Cx(userId)));
        && (r.Failure? ==> outcome == Thrown(r.error) && userStates == old(userStates) && events == old(events))
        && (r.Success? ==> outcome == Done && userStates == old(userStates)[userId := r.value.us]
                           && events == old(events) + r.value.events)
    {
      var r := ReleaseSessionLocked(userStates, token, callingUid, Cx(userId));
      if r.Failure? {
        return Thrown(r.error);
      }
      OwnedAfterRemoval(userStates[userId], r.value.us, userId, nextToken, {token});
      UpdateUserValid(userStates, nextToken, userId, r.value.us);
      userStates := userStates[userId := r.value.us];
      events := events + r.value.events;
      return Done;
    }

    /**
     * tune: the lookup's exceptions; otherwise the backend session tunes,
     * the session's open watch entry (if any) is closed, and a new entry is
     * opened whose location the content resolver returned. When the
     * session's input has left the input map, its package cannot be looked
     * up: NullPointerException after the tune and the close, the session
     * unchanged.
     */
    method Tune(token: Token, callingUid: int, userId: int, channelId: int, newLogUri: Option<int>)
      returns (outcome: Outcome)
      requires Valid()
      modifies this`userStates, this`events
      ensures Valid()
      ensures GetSessionLocked(old(userStates), token, callingUid, userId).Failure? ==>
        && outcome == Thrown(GetSessionLocked(old(userStates), token, callingUid, userId).error)
        && userStates == old(userStates) && events == old(events)
      ensures GetSessionLocked(old(userStates), token, callingUid, userId).Success? ==>
        var us := old(userStates)[userId];
        var s := us.sessionStateMap[token];
        s.inputId !in us.inputMap ==>
        && outcome == Thrown(NullPointerException)
        && userStates == old(userStates)
        && events == old(events) + [BackendTuned(s.session.value, channelId)]
                   + (if s.logUri.Some? then [LogEntryClosed(s.logUri.value)] else [])
      ensures GetSessionLocked(old(userStates), token, callingUid, userId).Success? ==>
        var us := old(userStates)[userId];
        var s := us.sessionStateMap[token];
        s.inputId in us.inputMap ==>
        && outcome == Done
        && userStates == old(userStates)[userId := us.(sessionStateMap := us.sessionStateMap[token := s.(logUri := newLogUri)])]
        && events == old(events) + [BackendTuned(s.session.value, channelId)]
                   + (if s.logUri.Some? then [LogEntryClosed(s.logUri.value)] else [])
                   + [LogEntryOpened(newLogUri, channelId)]
    {
      var found := GetSessionLocked(userStates, token, callingUid, userId);
      if found.Failure? {
        return Thrown(found.error);
      }
      events := events + [BackendTuned(found.value, channelId)];
      var us := userStates[userId];
      var s := us.sessionStateMap[token];
      if s.logUri.Some? {
        events := events + [LogEntryClosed(s.logUri.value)];
      }
      if s.inputId !in us.inputMap {
        // The watch entry names the input's package, looked up in the input map.
        return Thrown(NullPointerException);
      }
      var us1 := us.(sessionStateMap := us.sessionStateMap[token := s.(logUri := newLogUri)]);
      SessionFieldsConsistent(us, token, s.(logUri := newLogUri));
      UpdateUserValid(userStates, nextToken, userId, us1);
      userStates := userStates[userId := us1];
      events := events + [LogEntryOpened(newLogUri, channelId)];
      return Done;
    }

    /**
     * The session callback's onSessionCreated, for a session still
     * registered; an answer for a user or session that is gone
     * changes nothing.
     */
    method OnSessionCreated(token: Token, userId: int, session: Option<Token>)
      requires Valid()
      modifies this`userStates, this`events
      ensures Valid()
      ensures userId !in old(userStates) ==> userStates == old(userStates) && events == old(events)
      ensures userId in old(userStates) ==>
        var r := SessionCreated(old(userStates)[userId], token, session, old(Cx(userId)));
        userStates == old(userStates)[userId := r.us] && events == old(events) + r.events
    {
      if userId !in userStates {
        return;
      }
      var r := SessionCreated(userStates[userId], token, session, Cx(userId));
      UpdateUserValid(userStates, nextToken, userId, r.us);
      userStates := userStates[userId := r.us];
      events := events + r.events;
    }

    /**
     * SessionState.binderDied for a registered session; a death reported
     * for a user or session that is gone changes nothing.
     */
    method OnSessionBinderDied(token: Token, userId: int)
      requires Valid()
      modifies this`userStates, this`events
      ensures Valid()
      ensures userId !in old(userStates) ==> userStates == old(userStates) && events == old(events)
      ensures userId in old(userStates) ==>
        var r := SessionBinderDied(old(userStates)[userId], token, old(Cx(userId)));
        userStates == old(userStates)[userId := r.us] && events == old(events) + r.events
    {
      if userId !in userStates {
        return;
      }
      var r := SessionBinderDied(userStates[userId], token, Cx(userId));
      UpdateUserValid(userStates, nextToken, userId, r.us);
      userStates := userStates[userId := r.us];
      events := events + r.events;
    }

    /**
     * ClientState.binderDied: the client's sessions are released and it is
     * unregistered from every input it watched, so its entry is gone and so
     * are exactly its sessions.
     */
    method ClientBinderDied(client: Token, userId: int) returns (outcome: Outcome)
      requires Valid()
      modifies this`userStates, this`events
      ensures Valid()
      ensures userId !in old(userStates) ==>
        outcome == Thrown(IllegalStateException) && userStates == old(userStates) && events == old(events)
      ensures userId in old(userStates) ==>
        && outcome == Done && userId in userStates
        && userStates - {userId} == old(userStates) - {userId}
        && client !in userStates[userId].clientStateMap
        && userStates[userId].sessionStateMap
           == old(userStates)[userId].sessionStateMap - ClientSessions(old(userStates)[userId], client)
        && userStates[userId].inputMap == old(userStates)[userId].inputMap
        && userStates[userId].callbackSet == old(userStates)[userId].callbackSet
        && userStates[userId].clientStateMap == old(userStates)[userId].clientStateMap - {client}
        && (forall id | id in userStates[userId].serviceStateMap ::
              client !in userStates[userId].serviceStateMap[id].clientTokens)
        && |old(events)| <= |events| && events[..|old(events)|] == old(events)
        && var us := old(userStates)[userId];
        && (forall t | t in ClientSessions(us, client) ::
              t in us.sessionStateMap && us.sessionStateMap[t].session.Some?
              && BackendSessionReleased(us.sessionStateMap[t].session.value) in events[|old(events)|..])
        && (forall id | id in us.serviceStateMap && SoleWatcher(us.serviceStateMap[id], client) ::
              BackendCallbackUnregistered(id) in events[|old(events)|..])
        && ClientGoneServices(us, client, userStates[userId], events[|old(events)|..])
    {
      if userId !in userStates {
        return Thrown(IllegalStateException);
      }
      var us := userStates[userId];
      var r := ClientDied(us, client, Cx(userId));
      OwnedAfterRemoval(us, r.us, userId, nextToken, ClientSessions(us, client));
      UpdateUserValid(userStates, nextToken, userId, r.us);
      UpdateOutside(userStates, userId, r.us);
      userStates := userStates[userId := r.us];
      events := events + r.events;
      assert events[|old(events)|..] == r.events;
      return Done;
    }

    /** onServiceConnected: the user must exist, then the locked part runs. */
    method OnServiceConnected(conn: Connection, service: Token) returns (outcome: Outcome)
      requires Valid()
      modifies this`userStates, this`events
      ensures Valid()
      ensures conn.userId !in old(userStates) ==>
        outcome == Thrown(IllegalStateException) && userStates == old(userStates) && events == old(events)
      ensures conn.userId in old(userStates) && conn.inputId !in old(userStates)[conn.userId].serviceStateMap ==>
        outcome == Thrown(NullPointerException) && userStates == old(userStates) && events == old(events)
      ensures conn.userId in old(userStates) && conn.inputId in old(userStates)[conn.userId].serviceStateMap ==>
        && outcome == Done
        && var us := old(userStates)[conn.userId];
        && var ss := us.serviceStateMap[conn.inputId];
        && userStates == old(userStates)[conn.userId := us.(serviceStateMap := us.serviceStateMap[conn.inputId :=
             ss.(service := Some(service), hasCallback := ss.hasCallback || ss.clientTokens != [])])]
        && |old(events)| <= |events| && events[..|old(events)|] == old(events)
        && (forall t | t in ss.sessionTokens :: BackendSessionRequested(conn.inputId, t) in events[|old(events)|..])
    {
      if conn.userId !in userStates {
        return Thrown(IllegalStateException);
      }
      var us := userStates[conn.userId];
      var r := ServiceConnectedLocked(us, conn.inputId, service);
      if r.Failure? {
        return Thrown(r.error);
      }
      UpdateUserValid(userStates, nextToken, conn.userId, r.value.us);
      userStates := userStates[conn.userId := r.value.us];
      events := events + r.value.events;
      assert events[|old(events)|..] == r.value.events;
      return Done;
    }

    /**
     * onServiceDisconnected: a component name other than the connection's
     * throws IllegalArgumentException before anything happens; the user must
     * exist; then the locked part runs.
     */
    method OnServiceDisconnected(conn: Connection, name: string) returns (outcome: Outcome)
      requires Valid()
      modifies this`userStates, this`events
      ensures Valid()
      ensures conn.component != name ==>
        outcome == Thrown(IllegalArgumentException) && userStates == old(userStates) && events == old(events)
      ensures conn.component == name && conn.userId !in old(userStates) ==>
        outcome == Thrown(IllegalStateException) && userStates == old(userStates) && events == old(events)
      ensures conn.component == name && conn.userId in old(userStates) ==>
        && outcome == Done
        && conn.userId in userStates
        && userStates - {conn.userId} == old(userStates) - {conn.userId}
        && |old(events)| <= |events| && events[..|old(events)|] == old(events)
        && var us := old(userStates)[conn.userId];
        && var after := userStates[conn.userId];
        && after.inputMap == us.inputMap && after.callbackSet == us.callbackSet
        && (conn.inputId !in us.serviceStateMap ==> after == us && events == old(events))
        && (conn.inputId in us.serviceStateMap ==>
              && var pending := PendingIn(us.sessionStateMap, us.serviceStateMap[conn.inputId].sessionTokens);
              && after == UpdateServiceConnection(Disconnected(us, conn.inputId, pending), conn.inputId,
                                                  old(Cx(conn.userId))).us
              && after.sessionStateMap == us.sessionStateMap - pending
              && after.serviceStateMap - {conn.inputId} == us.serviceStateMap - {conn.inputId}
              && |Replies(events[|old(events)|..])| == |pending|
              && (forall t | t in pending :: NullReply(us.sessionStateMap[t]) in events[|old(events)|..])
              && (forall e | e in events[|old(events)|..] ::
                    || (e.SessionTokenSent? && e.token.None?)
                    || e.LogEntryClosed?
                    || e == BindRequested(conn.inputId, conn.userId)
                    || (e.StateChangeSent? && e.callback in us.callbackSet && e.inputId == conn.inputId
                        && e.state == INPUT_STATE_DISCONNECTED))
              && (forall cb | cb in us.callbackSet ::
                    StateChangeSent(cb, conn.inputId, INPUT_STATE_DISCONNECTED) in events[|old(events)|..])
              && conn.inputId in after.serviceStateMap
              && after.serviceStateMap[conn.inputId].service.None?
              && !after.serviceStateMap[conn.inputId].hasCallback)
    {
      if conn.component != name {
        return Thrown(IllegalArgumentException);
      }
      if conn.userId !in userStates {
        return Thrown(IllegalStateException);
      }
      var us := userStates[conn.userId];
      var r := ServiceDisconnectedLocked(us, conn.inputId, Cx(conn.userId));
      if conn.inputId in us.serviceStateMap {
        OwnedAfterRemoval(us, r.us, conn.userId, nextToken,
                          PendingIn(us.sessionStateMap, us.serviceStateMap[conn.inputId].sessionTokens));
      }
      UpdateUserValid(userStates, nextToken, conn.userId, r.us);
      UpdateOutside(userStates, conn.userId, r.us);
      userStates := userStates[conn.userId := r.us];
      events := events + r.events;
      assert events[|old(events)|..] == r.events;
      return Done;
    }

    /**
     * removeUser: nothing for an unknown user; otherwise every created
     * session is released, then every service drops its state callback and
     * is unbound, and the user's tables are forgotten.
     */
    method RemoveUser(userId: int) returns (ghost split: nat)
      requires Valid()
      modifies this`userStates, this`events
      ensures Valid()
      ensures userId !in old(userStates) ==> userStates == old(userStates) && events == old(events)
      ensures userId in old(userStates) ==>
        && userStates == old(userStates) - {userId}
        && |old(events)| <= split <= |events| && events[..|old(events)|] == old(events)
        && ReleasesAll(events[|old(events)|..split], old(userStates)[userId].sessionStateMap)
        && TearsDown(events[split..], old(userStates)[userId].serviceStateMap)
    {
      split := |events|;
      if userId !in userStates {
        return;
      }
      var us := userStates[userId];
      var released := ReleaseBackendSessions(us.sessionStateMap);
      var torn := TearDownServices(us.serviceStateMap);
      RemoveUserValid(userStates, nextToken, userId);
      userStates := userStates - {userId};
      events := events + released;
      split := |events|;
      events := events + torn;
      assert events[|old(events)|..split] == released && events[split..] == torn;
    }
  }
}
