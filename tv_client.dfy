/**
 * The client side of the TV-input framework: the manager's table of pending
 * session requests keyed by sequence number, the input-state cache and its
 * listeners, and the per-session correlation of dispatched input events with
 * their completions.
 */
module TvClient {
  import opened Wrappers
  import opened Lists

  const INT_MAX: int := 0x7FFF_FFFF
  const INT_MIN: int := -0x8000_0000

  /** Session.dispatchInputEvent results. */
  const DISPATCH_IN_PROGRESS: int := -1
  const DISPATCH_NOT_HANDLED: int := 0
  const DISPATCH_HANDLED: int := 1

  /** mNextSeq++ on a Java int. */
  function NextSeq(seqNum: int): (next: int)
    requires INT_MIN <= seqNum <= INT_MAX
    ensures INT_MIN <= next <= INT_MAX
    ensures seqNum < INT_MAX ==> next == seqNum + 1
    ensures seqNum == INT_MAX ==> next == INT_MIN
  {
    if seqNum == INT_MAX then INT_MIN else seqNum + 1
  }

  // ---------------------------------------------------------------------------
  // Pending input events: what finishedInputEvent does to the table.
  // ---------------------------------------------------------------------------

  /**
   * A dispatched event awaiting its completion: the caller's token for it, and
   * whether a finished-event callback and a handler to run it on were given.
   */
  datatype PendingEvent = PendingEvent(eventToken: int, hasCallback: bool, hasHandler: bool)

  /** An invocation of FinishedInputEventCallback.onFinishedInputEvent. */
  datatype Completion = Completion(eventToken: int, handled: bool)

  /**
   * finishedInputEvent on the pending table: a pending sequence number is
   * removed and completed with `handled`; any other is ignored.
   */
  function Finish(pending: map<int, PendingEvent>, seqNum: int, handled: bool)
    : (r: (map<int, PendingEvent>, Option<Completion>))
    ensures r.1.Some? <==> seqNum in pending
    ensures seqNum in pending ==> r.0 == pending - {seqNum} && r.1.value == Completion(pending[seqNum].eventToken, handled)
    ensures seqNum !in pending ==> r.0 == pending
    ensures seqNum !in r.0 && r.0.Keys <= pending.Keys
  {
    if seqNum in pending then (pending - {seqNum}, Some(Completion(pending[seqNum].eventToken, handled)))
    else (pending, None)
  }

  /** A second completion of the same sequence number is ignored. */
  lemma FinishAtMostOnce(pending: map<int, PendingEvent>, seqNum: int, handled: bool, again: bool)
    ensures Finish(Finish(pending, seqNum, handled).0, seqNum, again).1 == None
  {
  }

  /** A run of finishedInputEvent calls, in order; returns the table and the completions fired. */
  function FinishAll(pending: map<int, PendingEvent>, seqNums: seq<int>, handled: bool)
    : (r: (map<int, PendingEvent>, seq<Completion>))
    decreases |seqNums|
  {
    if seqNums == [] then (pending, [])
    else
      var step := Finish(pending, seqNums[0], handled);
      var rest := FinishAll(step.0, seqNums[1..], handled);
      (rest.0, (if step.1.Some? then [step.1.value] else []) + rest.1)
  }

  /** The sequence numbers a run names. */
  ghost function Named(seqNums: seq<int>): set<int>
  {
    set s | s in seqNums
  }

  lemma NamedCons(seqNums: seq<int>)
    requires seqNums != []
    ensures Named(seqNums) == {seqNums[0]} + Named(seqNums[1..])
  {
    assert forall s | s in seqNums :: s == seqNums[0] || s in seqNums[1..];
  }

  /**
   * However often the sequence numbers recur, every pending event is
   * completed exactly once and nothing else is: the completions are as many as
   * the pending sequence numbers named, and those are no longer pending.
   */
  lemma {:induction false} FinishAllCompletesEachOnce(pending: map<int, PendingEvent>, seqNums: seq<int>, handled: bool)
    ensures |FinishAll(pending, seqNums, handled).1| == |pending.Keys * Named(seqNums)|
    ensures FinishAll(pending, seqNums, handled).0.Keys == pending.Keys - Named(seqNums)
    decreases |seqNums|
  {
    if seqNums == [] {
      assert Named(seqNums) == {};
    } else {
      var s := seqNums[0];
      var step := Finish(pending, s, handled);
      FinishAllCompletesEachOnce(step.0, seqNums[1..], handled);
      FinishAllStep(pending, seqNums, handled);
    }
  }

  /** One call of a run: the first name's completion, then the rest of the run on the table it leaves. */
  lemma FinishAllStep(pending: map<int, PendingEvent>, seqNums: seq<int>, handled: bool)
    requires seqNums != []
    requires var step := Finish(pending, seqNums[0], handled);
      && |FinishAll(step.0, seqNums[1..], handled).1| == |step.0.Keys * Named(seqNums[1..])|
      && FinishAll(step.0, seqNums[1..], handled).0.Keys == step.0.Keys - Named(seqNums[1..])
    ensures |FinishAll(pending, seqNums, handled).1| == |pending.Keys * Named(seqNums)|
    ensures FinishAll(pending, seqNums, handled).0.Keys == pending.Keys - Named(seqNums)
  {
    var s := seqNums[0];
    var rest := Named(seqNums[1..]);
    NamedCons(seqNums);
    var step := Finish(pending, s, handled);
    var after := FinishAll(step.0, seqNums[1..], handled);
    assert FinishAll(pending, seqNums, handled)
        == (after.0, (if step.1.Some? then [step.1.value] else []) + after.1);
    assert step.0.Keys == pending.Keys - {s};
    NamedStep(pending.Keys, s, rest);
    if s in pending {
      assert |FinishAll(pending, seqNums, handled).1| == 1 + |after.1|;
    } else {
      assert |FinishAll(pending, seqNums, handled).1| == |after.1|;
    }
  }

  /** The named pending keys, split at the first name of the run. */
  lemma NamedStep(keys: set<int>, s: int, rest: set<int>)
    ensures s in keys ==> |keys * ({s} + rest)| == 1 + |(keys - {s}) * rest|
    ensures s !in keys ==> keys * ({s} + rest) == (keys - {s}) * rest
    ensures keys - ({s} + rest) == (keys - {s}) - rest
  {
    if s in keys {
      assert keys * ({s} + rest) == {s} + ((keys - {s}) * rest);
      assert s !in (keys - {s}) * rest;
    }
  }

  // ---------------------------------------------------------------------------
  // The session's handler messages.
  // ---------------------------------------------------------------------------

  /**
   * MSG_TIMEOUT_INPUT_EVENT carries the pending event (`event`, by its sequence
   * number) and an int argument; MSG_FLUSH_INPUT_EVENT carries only the argument.
   * The handler finishes the sequence number given by the argument.
   */
  datatype HandlerMessage =
    | TimeoutMessage(event: int, arg1: int)
    | FlushMessage(arg1: int)

  /** The timeout message as the session builds it: the pending event as its object, and no argument. */
  function TimeoutMessageAsWritten(seqNum: int): (m: HandlerMessage)
    ensures m.TimeoutMessage? && m.event == seqNum && m.arg1 == 0
  {
    TimeoutMessage(seqNum, 0)
  }

  /** The timeout message carrying the event's sequence number as the argument the handler reads. */
  function TimeoutMessageFor(seqNum: int): (m: HandlerMessage)
    ensures m.TimeoutMessage? && m.event == seqNum && m.arg1 == seqNum
  {
    TimeoutMessage(seqNum, seqNum)
  }

  /**
   * With the message as written, the timeout of an event whose sequence
   * number is not 0 never completes it: the event stays pending, and an event
   * pending under 0, if any, is completed in its place.
   */
  lemma TimeoutAsWrittenMissesEvent(pending: map<int, PendingEvent>, seqNum: int)
    requires seqNum in pending && seqNum != 0
    ensures seqNum in Finish(pending, TimeoutMessageAsWritten(seqNum).arg1, false).0
    ensures Finish(pending, TimeoutMessageAsWritten(seqNum).arg1, false).1.Some? <==> 0 in pending
  {
  }

  /** With the sequence number carried, the timeout completes the event that timed out, as not handled. */
  lemma TimeoutForCompletesEvent(pending: map<int, PendingEvent>, seqNum: int)
    requires seqNum in pending
    ensures seqNum !in Finish(pending, TimeoutMessageFor(seqNum).arg1, false).0
    ensures Finish(pending, TimeoutMessageFor(seqNum).arg1, false).1
         == Some(Completion(pending[seqNum].eventToken, false))
  {
  }

  /** The messages left after Handler.removeMessages(MSG_FLUSH_INPUT_EVENT). */
  function WithoutFlushes(messages: seq<HandlerMessage>): (kept: seq<HandlerMessage>)
    ensures forall m | m in kept :: m in messages && !m.FlushMessage?
    ensures forall m | m in messages && !m.FlushMessage? :: m in kept
    decreases |messages|
  {
    if messages == [] then []
    else (if messages[0].FlushMessage? then [] else [messages[0]]) + WithoutFlushes(messages[1..])
  }

  /** The messages left after Handler.removeMessages(MSG_TIMEOUT_INPUT_EVENT, p). */
  function WithoutTimeoutOf(messages: seq<HandlerMessage>, seqNum: int): (kept: seq<HandlerMessage>)
    ensures forall m | m in kept :: m in messages && !(m.TimeoutMessage? && m.event == seqNum)
    ensures forall m | m in messages && !(m.TimeoutMessage? && m.event == seqNum) :: m in kept
    decreases |messages|
  {
    if messages == [] then []
    else
      var first := if messages[0].TimeoutMessage? && messages[0].event == seqNum then [] else [messages[0]];
      first + WithoutTimeoutOf(messages[1..], seqNum)
  }

  // ---------------------------------------------------------------------------
  // The manager.
  // ---------------------------------------------------------------------------

  /** A session-level event the service forwards to the client, by the session's sequence number. */
  datatype SessionEvent =
    | ChannelRetuned(channelUri: string)
    | TrackInfoChanged(trackCount: nat)
    | VideoAvailable
    | VideoUnavailable(reason: int)
    | CustomEvent(eventType: string)

  /** A session's input channel: none, or one with or without an input-event sender made over it. */
  datatype InputChannel = NoChannel | Channel(sender: bool)

  /** A SessionCallbackRecord: the application's callback and handler, and the session once created. */
  datatype SessionCallbackRecord = SessionCallbackRecord(callback: int, handler: int, session: Option<Session>)

  /** A TvInputListenerRecord: the listener, compared by identity, and its handler. */
  datatype ListenerRecord = ListenerRecord(listener: int, handler: int)

  /** A callback posted to an application handler. */
  datatype PostedCallback =
    | SessionCreatedPosted(callback: int, createdSession: Option<Session>)
    | SessionReleasedPosted(callback: int, releasedSession: Session)
    | SessionEventPosted(callback: int, target: Option<Session>, event: SessionEvent)
    | StateChangedPosted(listener: int, inputId: string, state: int)

  /** A call into the system service. */
  datatype ServiceCall =
    | RegisterCallbackCall(userId: int)
    | CreateSessionCall(inputId: string, seqNum: int, userId: int)
    | ReleaseSessionCall(token: int, userId: int)

  /** The position of the first record of `listener`, or the length when it has none. */
  function FirstRecordOf(records: seq<ListenerRecord>, listener: int, from: nat): (i: nat)
    requires from <= |records|
    ensures from <= i <= |records|
    ensures i < |records| ==> records[i].listener == listener
    ensures forall j | from <= j < i :: records[j].listener != listener
    decreases |records| - from
  {
    if from == |records| || records[from].listener == listener then from
    else FirstRecordOf(records, listener, from + 1)
  }

  /** The listener records after unregisterListener: the first record of the listener is gone. */
  function RemoveFirstListener(records: seq<ListenerRecord>, listener: int): (kept: seq<ListenerRecord>)
  {
    var i := FirstRecordOf(records, listener, 0);
    if i == |records| then records else records[..i] + records[i + 1..]
  }

  /** The state-change callbacks posted to every listener, in list order. */
  function StateChangedPosts(records: seq<ListenerRecord>, inputId: string, state: int): (posts: seq<PostedCallback>)
    ensures |posts| == |records|
    ensures forall i | 0 <= i < |records| :: posts[i] == StateChangedPosted(records[i].listener, inputId, state)
    decreases |records|
  {
    if records == [] then []
    else
      var last := StateChangedPosted(records[|records| - 1].listener, inputId, state);
      StateChangedPosts(records[..|records| - 1], inputId, state) + [last]
  }

  /** The sessions held by the callback records. */
  function SessionsOf(records: map<int, SessionCallbackRecord>): set<Session>
  {
    set seqNum | seqNum in records && records[seqNum].session.Some? :: records[seqNum].session.value
  }

  class TvInputManager {
    const userId: int
    var nextSeq: int
    /** mSessionCallbackRecordMap. */
    var records: map<int, SessionCallbackRecord>
    /** mStateMap: the last state reported for each input. */
    var stateMap: map<string, int>
    /** mTvInputListenerRecordsList. */
    var listenerRecords: seq<ListenerRecord>
    var posted: seq<PostedCallback>
    var serviceCalls: seq<ServiceCall>

    /**
     * A session held by a record belongs to this manager and has the record's
     * sequence number; every sequence number in the table was handed out.
     */
    ghost predicate Valid()
      reads this
    {
      && INT_MIN <= nextSeq <= INT_MAX
      && (forall seqNum | seqNum in records && records[seqNum].session.Some? ::
            records[seqNum].session.value.manager == this && records[seqNum].session.value.seqNum == seqNum)
    }

    /** Every sequence number in the table is below the next one, as long as the counter has not wrapped. */
    ghost predicate SeqsBelowNext()
      reads this
    {
      0 <= nextSeq && forall seqNum | seqNum in records :: 0 <= seqNum < nextSeq
    }

    /** The constructor registers the state callback with the service. */
    constructor(userId: int)
      ensures Valid() && SeqsBelowNext() && this.userId == userId
      ensures nextSeq == 0 && records == map[] && stateMap == map[] && listenerRecords == [] && posted == []
      ensures serviceCalls == [RegisterCallbackCall(userId)]
    {
      this.userId := userId;
      nextSeq := 0;
      records := map[];
      stateMap := map[];
      listenerRecords := [];
      posted := [];
      serviceCalls := [RegisterCallbackCall(userId)];
    }

    /**
     * createSession: the arguments are checked before anything changes; then
     * the request is recorded under a new sequence number and sent to the service.
     */
    method CreateSession(inputId: Option<string>, callback: Option<int>, handler: Option<int>)
      returns (outcome: Outcome)
      requires Valid()
      modifies this`nextSeq, this`records, this`serviceCalls
      ensures Valid()
      ensures outcome.Thrown? <==> inputId.None? || callback.None? || handler.None?
      ensures outcome.Thrown? ==> outcome.exception == IllegalArgumentException
      ensures outcome.Thrown? ==> nextSeq == old(nextSeq) && records == old(records) && serviceCalls == old(serviceCalls)
      ensures outcome.Done? ==>
        && nextSeq == NextSeq(old(nextSeq))
        && records == old(records)[old(nextSeq) := SessionCallbackRecord(callback.value, handler.value, None)]
        && serviceCalls == old(serviceCalls) + [CreateSessionCall(inputId.value, old(nextSeq), userId)]
      ensures outcome.Done? && old(nextSeq) < INT_MAX && old(SeqsBelowNext()) ==>
        SeqsBelowNext() && old(nextSeq) !in old(records) && old(nextSeq) < nextSeq
    {
      if inputId.None? || callback.None? || handler.None? {
        return Thrown(IllegalArgumentException);
      }
      var record := SessionCallbackRecord(callback.value, handler.value, None);
      var seqNum := nextSeq;
      nextSeq := NextSeq(nextSeq);
      records := records[seqNum := record];
      serviceCalls := serviceCalls + [CreateSessionCall(inputId.value, seqNum, userId)];
      outcome := Done;
    }

    /**
     * ITvInputClient.onSessionCreated: dropped for an unknown sequence number;
     * otherwise a session is made when the token is not null, stored in the
     * record, and handed to the application's callback.
     */
    method OnSessionCreated(token: Option<int>, hasChannel: bool, seqNum: int) returns (created: Option<Session>)
      requires Valid()
      modifies this`records, this`posted
      ensures Valid()
      ensures seqNum !in old(records) ==> created.None? && records == old(records) && posted == old(posted)
      ensures seqNum in old(records) ==>
        && (created.Some? <==> token.Some?)
        && records == old(records)[seqNum := old(records)[seqNum].(session := created)]
        && posted == old(posted) + [SessionCreatedPosted(old(records)[seqNum].callback, created)]
      ensures created.Some? ==>
        && fresh(created.value)
        && created.value.token == token && created.value.channel == (if hasChannel then Channel(false) else NoChannel)
        && created.value.seqNum == seqNum && created.value.manager == this
        && created.value.pending == map[] && created.value.messages == []
    {
      if seqNum !in records {
        return None;
      }
      var record := records[seqNum];
      created := None;
      if token.Some? {
        var session := new Session(token, hasChannel, this, seqNum);
        created := Some(session);
      }
      records := records[seqNum := record.(session := created)];
      posted := posted + [SessionCreatedPosted(record.callback, created)];
    }

    /**
     * ITvInputClient.onSessionReleased: the record is deleted; for a known
     * sequence number the session is released locally and the application is
     * told. A record whose session is still null makes this throw.
     */
    method OnSessionReleased(seqNum: int) returns (outcome: Outcome)
      requires Valid()
      modifies this`records, this`posted, SessionsOf(records)
      ensures Valid()
      ensures records == old(records) - {seqNum}
      ensures seqNum !in old(records) ==> outcome.Done? && posted == old(posted)
      ensures seqNum in old(records) && old(records)[seqNum].session.None? ==>
        outcome == Thrown(NullPointerException) && posted == old(posted)
      ensures seqNum in old(records) && old(records)[seqNum].session.Some? ==>
        var session := old(records)[seqNum].session.value;
        && outcome.Done?
        && posted == old(posted) + [SessionReleasedPosted(old(records)[seqNum].callback, session)]
        && session.token.None? && session.channel == NoChannel
        && session.pending == old(session.pending) && session.completions == old(session.completions)
        && ReleasedQueue(session.messages, old(session.messages), session.pending, old(session.channel) == Channel(true))
    ensures forall x | x in old(SessionsOf(records)) && !(seqNum in old(records) && old(records)[seqNum].session == Some(x)) ::
      unchanged(x)
    {
      if seqNum !in records {
        return Done;
      }
      var record := records[seqNum];
      records := records - {seqNum};
      if record.session.None? {
        return Thrown(NullPointerException);
      }
      var session := record.session.value;
      assert session in old(SessionsOf(records));
      session.ReleaseInternal();
      posted := posted + [SessionReleasedPosted(record.callback, session)];
      outcome := Done;
    }

    /**
     * The per-session callbacks of ITvInputClient (channel retuned, tracks
     * changed, video available or not, custom event): forwarded to the
     * record's callback, and dropped when the sequence number has no record.
     */
    method OnSessionEvent(seqNum: int, event: SessionEvent)
      modifies this`posted
      ensures seqNum !in records ==> posted == old(posted)
      ensures seqNum in records ==>
        posted == old(posted) + [SessionEventPosted(records[seqNum].callback, records[seqNum].session, event)]
    {
      if seqNum !in records {
        return;
      }
      var record := records[seqNum];
      posted := posted + [SessionEventPosted(record.callback, record.session, event)];
    }

    /** ITvInputManagerCallback.onInputStateChanged: the state is cached and posted to every listener. */
    method OnInputStateChanged(inputId: string, state: int)
      modifies this`stateMap, this`posted
      ensures stateMap == old(stateMap)[inputId := state]
      ensures posted == old(posted) + StateChangedPosts(listenerRecords, inputId, state)
    {
      stateMap := stateMap[inputId := state];
      var i := 0;
      while i < |listenerRecords|
        invariant 0 <= i <= |listenerRecords|
        invariant posted == old(posted) + StateChangedPosts(listenerRecords[..i], inputId, state)
        invariant stateMap == old(stateMap)[inputId := state]
      {
        assert listenerRecords[..i + 1][..i] == listenerRecords[..i];
        posted := posted + [StateChangedPosted(listenerRecords[i].listener, inputId, state)];
        i := i + 1;
      }
      assert listenerRecords[..i] == listenerRecords;
    }

    /** getInputState: the cached state; IllegalArgumentException for a null or unknown input id. */
    function GetInputState(inputId: Option<string>): (r: Result<int, Exception>)
      reads this
      ensures r.Failure? <==> inputId.None? || inputId.value !in stateMap
      ensures r.Failure? ==> r.error == IllegalArgumentException
      ensures r.Success? ==> r.value == stateMap[inputId.value]
    {
      if inputId.None? then Failure(IllegalArgumentException)
      else if inputId.value !in stateMap then Failure(IllegalArgumentException)
      else Success(stateMap[inputId.value])
    }

    /** registerListener: appends a record; IllegalArgumentException for a null listener or handler. */
    method RegisterListener(listener: Option<int>, handler: Option<int>) returns (outcome: Outcome)
      modifies this`listenerRecords
      ensures outcome.Thrown? <==> listener.None? || handler.None?
      ensures outcome.Thrown? ==> outcome.exception == IllegalArgumentException && listenerRecords == old(listenerRecords)
      ensures outcome.Done? ==> listenerRecords == old(listenerRecords) + [ListenerRecord(listener.value, handler.value)]
    {
      if listener.None? || handler.None? {
        return Thrown(IllegalArgumentException);
      }
      listenerRecords := listenerRecords + [ListenerRecord(listener.value, handler.value)];
      outcome := Done;
    }

    /**
     * unregisterListener: the iterator loop removes the first record of the
     * listener and stops; IllegalArgumentException for a null listener.
     */
    method UnregisterListener(listener: Option<int>) returns (outcome: Outcome)
      modifies this`listenerRecords
      ensures outcome.Thrown? <==> listener.None?
      ensures outcome.Thrown? ==> outcome.exception == IllegalArgumentException && listenerRecords == old(listenerRecords)
      ensures outcome.Done? ==> listenerRecords == RemoveFirstListener(old(listenerRecords), listener.value)
    {
      if listener.None? {
        return Thrown(IllegalArgumentException);
      }
      var i := 0;
      while i < |listenerRecords|
        invariant 0 <= i <= |listenerRecords| && listenerRecords == old(listenerRecords)
        invariant forall j | 0 <= j < i :: listenerRecords[j].listener != listener.value
      {
        if listenerRecords[i].listener == listener.value {
          listenerRecords := listenerRecords[..i] + listenerRecords[i + 1..];
          return Done;
        }
        i := i + 1;
      }
      outcome := Done;
    }
  }

  /**
   * Unregistering removes one record exactly when the listener has one, that
   * record is the listener's, and the others keep their order.
   */
  lemma UnregisterRemovesAtMostOne(records: seq<ListenerRecord>, listener: int)
    ensures var kept := RemoveFirstListener(records, listener);
      && (kept == records <==> forall r | r in records :: r.listener != listener)
      && (kept != records ==>
            && |kept| == |records| - 1
            && exists i | 0 <= i < |records| :: records[i].listener == listener && kept == records[..i] + records[i + 1..])
      && multiset(kept) <= multiset(records)
      && forall r | r in multiset(records) - multiset(kept) :: r.listener == listener
  {
    var i := FirstRecordOf(records, listener, 0);
    if i < |records| {
      var kept := RemoveFirstListener(records, listener);
      assert records == records[..i] + [records[i]] + records[i + 1..];
      assert multiset(records) == multiset(kept) + multiset{records[i]};
      assert |kept| != |records|;
    }
  }

  // ---------------------------------------------------------------------------
  // The session.
  // ---------------------------------------------------------------------------

  class Session {
    const manager: TvInputManager
    /** mSeq: the sequence number the session was requested under. */
    const seqNum: int
    /** mToken; null once released. */
    var token: Option<int>
    /** mChannel, and mSender made over it. */
    var channel: InputChannel
    /** mPendingEvents: input events sent and not yet finished, by input sequence number. */
    var pending: map<int, PendingEvent>
    /** The messages queued on the session's input handler. */
    var messages: seq<HandlerMessage>
    /** The completion callbacks invoked, in order. */
    var completions: seq<Completion>

    constructor(token: Option<int>, hasChannel: bool, manager: TvInputManager, seqNum: int)
      ensures this.token == token && channel == (if hasChannel then Channel(false) else NoChannel)
      ensures this.manager == manager && this.seqNum == seqNum
      ensures pending == map[] && messages == [] && completions == []
    {
      this.token := token;
      channel := if hasChannel then Channel(false) else NoChannel;
      this.manager := manager;
      this.seqNum := seqNum;
      pending := map[];
      messages := [];
      completions := [];
    }

    /**
     * release: ignored once the token is gone; otherwise the service is asked
     * to release the session and the session is released locally.
     */
    method Release()
      modifies this, manager`serviceCalls, manager`records
      ensures old(token).None? ==> unchanged(this) && unchanged(manager)
      ensures old(token).Some? ==>
        && manager.serviceCalls == old(manager.serviceCalls) + [ReleaseSessionCall(old(token).value, manager.userId)]
        && manager.records == old(manager.records) - {seqNum}
        && token.None? && channel == NoChannel && pending == old(pending) && completions == old(completions)
        && ReleasedQueue(messages, old(messages), pending, old(channel) == Channel(true))
    {
      if token.None? {
        return;
      }
      manager.serviceCalls := manager.serviceCalls + [ReleaseSessionCall(token.value, manager.userId)];
      ReleaseInternal();
    }

    /**
     * releaseInternal: clears the token; with a sender, schedules a flush of
     * every pending event and disposes the sender; disposes the channel; and
     * drops the session's record from the manager's table.
     */
    method ReleaseInternal()
      modifies this`token, this`channel, this`messages, manager`records
      ensures token.None? && channel == NoChannel
      ensures manager.records == old(manager.records) - {seqNum}
      ensures ReleasedQueue(messages, old(messages), pending, old(channel) == Channel(true))
    {
      token := None;
      if channel.Channel? {
        if channel.sender {
          FlushPendingEventsLocked();
        }
        channel := NoChannel;
      }
      manager.records := manager.records - {seqNum};
    }

    /**
     * flushPendingEventsLocked: removes the flush messages already queued and
     * queues one for each pending sequence number, in ascending order.
     */
    method FlushPendingEventsLocked()
      modifies this`messages
      ensures ReleasedQueue(messages, old(messages), pending, true)
    {
      var kept := WithoutFlushes(messages);
      var flushes := FlushMessages(pending.Keys);
      messages := kept + flushes;
      assert messages[|kept|..] == flushes;
    }

    /**
     * dispatchInputEvent, on the main looper: IllegalArgumentException for a
     * null event or a callback without a handler; not handled without a
     * channel or when the send fails; otherwise the event is pending under its
     * sequence number, a timeout is queued, and the dispatch is in progress.
     */
    method DispatchInputEvent(event: Option<int>, eventToken: int, hasCallback: bool, hasHandler: bool,
                              sendSucceeds: bool)
      returns (r: Result<int, Exception>)
      modifies this`channel, this`pending, this`messages
      ensures r.Failure? <==> event.None? || (hasCallback && !hasHandler)
      ensures r.Failure? ==> r.error == IllegalArgumentException
      ensures r.Success? ==> r.value == DISPATCH_IN_PROGRESS || r.value == DISPATCH_NOT_HANDLED
      ensures r == Success(DISPATCH_IN_PROGRESS) <==> r.Success? && old(channel).Channel? && sendSucceeds
      ensures r == Success(DISPATCH_IN_PROGRESS) ==>
        && pending == old(pending)[event.value := PendingEvent(eventToken, hasCallback, hasHandler)]
        && messages == old(messages) + [TimeoutMessageFor(event.value)]
      ensures r != Success(DISPATCH_IN_PROGRESS) ==> pending == old(pending) && messages == old(messages)
      ensures r.Failure? ==> channel == old(channel)
      ensures r.Success? ==> channel == (if old(channel).Channel? then Channel(true) else NoChannel)
    {
      if event.None? {
        return Failure(IllegalArgumentException);
      }
      if hasCallback && !hasHandler {
        return Failure(IllegalArgumentException);
      }
      if channel.NoChannel? {
        return Success(DISPATCH_NOT_HANDLED);
      }
      var result := SendInputEventOnMainLooperLocked(event.value, PendingEvent(eventToken, hasCallback, hasHandler),
                                                     sendSucceeds);
      return Success(result);
    }

    /**
     * sendInputEventOnMainLooperLocked: over a channel, makes the sender if
     * needed and sends; a successful send records the event as pending and
     * queues its timeout.
     */
    method SendInputEventOnMainLooperLocked(eventSeq: int, p: PendingEvent, sendSucceeds: bool) returns (result: int)
      modifies this`channel, this`pending, this`messages
      ensures result == (if old(channel).Channel? && sendSucceeds then DISPATCH_IN_PROGRESS else DISPATCH_NOT_HANDLED)
      ensures channel == (if old(channel).Channel? then Channel(true) else NoChannel)
      ensures result == DISPATCH_IN_PROGRESS ==>
        pending == old(pending)[eventSeq := p] && messages == old(messages) + [TimeoutMessageFor(eventSeq)]
      ensures result == DISPATCH_NOT_HANDLED ==> pending == old(pending) && messages == old(messages)
    {
      if channel.Channel? {
        if !channel.sender {
          channel := Channel(true);
        }
        if sendSucceeds {
          pending := pending[eventSeq := p];
          messages := messages + [TimeoutMessageFor(eventSeq)];
          return DISPATCH_IN_PROGRESS;
        }
      }
      return DISPATCH_NOT_HANDLED;
    }

    /**
     * finishedInputEvent: a sequence number that is not pending is ignored;
     * otherwise it stops being pending, its timeout is withdrawn unless this is
     * the timeout, and its callback is invoked with `handled`. An event
     * dispatched without a callback throws NullPointerException at that point:
     * on its missing handler's looper, or, with a handler, on the missing
     * callback when the handler runs it.
     */
    method FinishedInputEvent(eventSeq: int, handled: bool, timeout: bool) returns (outcome: Outcome)
      modifies this`pending, this`messages, this`completions
      ensures pending == Finish(old(pending), eventSeq, handled).0
      ensures outcome == (if eventSeq in old(pending) && !old(pending)[eventSeq].hasCallback
                          then Thrown(NullPointerException) else Done)
      ensures completions == old(completions)
        + (if outcome == Done then OptionToSeq(Finish(old(pending), eventSeq, handled).1) else [])
      ensures eventSeq !in old(pending) ==> messages == old(messages) && completions == old(completions)
      ensures eventSeq in old(pending) ==>
        messages == if timeout then old(messages) else WithoutTimeoutOf(old(messages), eventSeq)
    {
      if eventSeq !in pending {
        return Done;
      }
      var p := pending[eventSeq];
      pending := pending - {eventSeq};
      if !timeout {
        messages := WithoutTimeoutOf(messages, eventSeq);
      }
      if !p.hasCallback {
        return Thrown(NullPointerException);
      }
      completions := completions + [Completion(p.eventToken, handled)];
      return Done;
    }

    /**
     * The input handler taking the queued message at `index`: the message
     * leaves the queue, and a timeout or a flush finishes the sequence number
     * in the message's argument, as not handled; a flush of a pending event
     * also withdraws that event's timeout.
     */
    method HandleMessage(index: nat) returns (outcome: Outcome)
      requires index < |messages|
      modifies this`pending, this`messages, this`completions
      ensures var seqNum := old(messages)[index].arg1;
        && pending == Finish(old(pending), seqNum, false).0
        && outcome == (if seqNum in old(pending) && !old(pending)[seqNum].hasCallback
                       then Thrown(NullPointerException) else Done)
        && completions == old(completions)
           + (if outcome == Done then OptionToSeq(Finish(old(pending), seqNum, false).1) else [])
      ensures var m := old(messages)[index];
        var rest := old(messages)[..index] + old(messages)[index + 1..];
        messages == (if m.FlushMessage? && m.arg1 in old(pending) then WithoutTimeoutOf(rest, m.arg1) else rest)
    {
      var msg := messages[index];
      messages := messages[..index] + messages[index + 1..];
      match msg
      case TimeoutMessage(_, arg1) => outcome := FinishedInputEvent(arg1, false, true);
      case FlushMessage(arg1) => outcome := FinishedInputEvent(arg1, false, false);
    }
  }

  /**
   * `flushes` holds one flush message for each pending sequence number, in
   * ascending order, and nothing else.
   */
  ghost predicate FlushesFor(flushes: seq<HandlerMessage>, seqNums: set<int>)
  {
    && |flushes| == |seqNums|
    && (forall m | m in flushes :: m.FlushMessage? && m.arg1 in seqNums)
    && (forall seqNum | seqNum in seqNums :: FlushMessage(seqNum) in flushes)
    && (forall i, j | 0 <= i < j < |flushes| :: flushes[i].arg1 < flushes[j].arg1)
  }

  /**
   * The loop of flushPendingEventsLocked: one flush message per pending
   * sequence number, walking the sparse array's keys in ascending order.
   */
  method FlushMessages(seqNums: set<int>) returns (flushes: seq<HandlerMessage>)
    ensures FlushesFor(flushes, seqNums)
  {
    flushes := [];
    var left := seqNums;
    while left != {}
      invariant left <= seqNums
      invariant |flushes| + |left| == |seqNums|
      invariant forall m | m in flushes :: m.FlushMessage? && m.arg1 in seqNums - left
      invariant forall k | k in seqNums - left :: FlushMessage(k) in flushes
      invariant forall i, j | 0 <= i < j < |flushes| :: flushes[i].arg1 < flushes[j].arg1
      invariant forall i, k | 0 <= i < |flushes| && k in left :: flushes[i].arg1 < k
      decreases |left|
    {
      // keyAt gives the keys in ascending order: take the least one left.
      ghost var least := LeastMember(left);  // the witness for the choice below
      var k :| k in left && forall j | j in left :: k <= j;
      flushes := flushes + [FlushMessage(k)];
      left := left - {k};
    }
  }

  /**
   * The handler queue after releaseInternal: with a sender, the queued flushes
   * are replaced by one for every pending event; otherwise it is as it was.
   */
  ghost predicate ReleasedQueue(after: seq<HandlerMessage>, before: seq<HandlerMessage>,
                                pending: map<int, PendingEvent>, hadSender: bool)
  {
    if hadSender then
      var kept := WithoutFlushes(before);
      |kept| <= |after| && after[..|kept|] == kept && FlushesFor(after[|kept|..], pending.Keys)
    else after == before
  }

  /**
   * After a release with a sender, every event still pending has a flush
   * queued, so handling the queue completes each of them as not handled.
   */
  lemma ReleaseQueuesAFlushPerPendingEvent(after: seq<HandlerMessage>, before: seq<HandlerMessage>,
                                           pending: map<int, PendingEvent>, seqNum: int)
    requires ReleasedQueue(after, before, pending, true) && seqNum in pending
    ensures exists i | 0 <= i < |after| ::
              && after[i] == FlushMessage(seqNum)
              && Finish(pending, after[i].arg1, false).1 == Some(Completion(pending[seqNum].eventToken, false))
  {
    var kept := WithoutFlushes(before);
    var flushes := after[|kept|..];
    var j :| 0 <= j < |flushes| && flushes[j] == FlushMessage(seqNum);
    assert after[|kept| + j] == FlushMessage(seqNum);
  }

  /** A value as a sequence of at most one element. */
  function OptionToSeq<T>(o: Option<T>): (s: seq<T>)
    ensures o.Some? ==> s == [o.value]
    ensures o.None? ==> s == []
  {
    if o.Some? then [o.value] else []
  }
}
