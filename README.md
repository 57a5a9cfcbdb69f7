# TV input broker, activity task, HDMI-CEC service and quick-settings panel — a Dafny model

This project models five pieces of an Android platform release:

- The TV input manager service. It is the system-side broker between TV input
  services (the backends) and client applications. It keeps per-user tables:
  the known inputs and their state, the bound backend services, the sessions,
  and the clients. It hands out session tokens and releases sessions when
  clients ask, when binders die, when a backend disconnects, or when a user
  is removed. It checks the calling uid on every session operation.
- The client-side TV input manager. It numbers session requests with a 32-bit
  wrapping counter and keeps one callback record per request. It mirrors input
  states to registered listeners. Its sessions dispatch input events with
  pending-event bookkeeping, a timeout message and a flush on release.
- The activity manager's task record. It keeps an ordered list of activities
  and a count of fullscreen activities. The task type and recents limit come
  from the first activity. It tracks the front-of-task marker and the effective
  root activity, runs the searches over the list, and clears the task. It also
  saves and restores the task description attributes, including the
  hexadecimal colour.
- The HDMI control service. It covers the port table (port id ↔ physical
  address), the ARC port test, the poll-strategy check, message dispatch to
  local devices, logical-address allocation and its completion test, and the
  power-status transitions between on, standby and the two transient states.
- The quick-settings panel. It covers the column clamp, the row and column
  layout of the tiles in `onMeasure`, the row-top and column-count
  arithmetic, the detail view shown and torn down, and listening.

## Files

- `wrappers.dfy` (module `Wrappers`): `Option`, `Result` and the exceptions the code throws.
- `lists.dfy` (module `Lists`): `ArrayList.remove(Object)` and `ArrayList.add(int, E)` on sequences.
- `tv_server.dfy` (module `TvServer`): the service.
- `tv_client.dfy` (module `TvClient`): the client manager and its `Session`.
- `activity_tasks.dfy` (module `ActivityTasks`): `TaskRecord` and the part of `ActivityRecord` it uses.
- `hdmi_control.dfy` (module `HdmiControl`): the HDMI service.
- `quick_settings.dfy` (module `QuickSettings`): the panel.

The service is a class. Its fields are the per-user tables (`userStates`),
the current user, and a log of what it sends out (`events`: binder calls to
clients, backends and callbacks, plus bind and unbind requests). Each table
update is a function from one `UserState` to the next, paired with the events
it emits. `Consistent(us)` is the invariant that relates the four tables, and
every public method keeps it. Among other things it requires that a client
lists each watched input once, and only inputs whose service entry lists the
client back (`mInputIds` and `mClientTokens`). TvInputManagerService.java
never adds to those two lists, so the condition holds trivially in the states
it reaches. The client-death contracts are stated for any consistent tables,
and they need it. The client manager, its sessions, the task
record, the HDMI service and the panel are classes whose methods update their
fields in place, as the Java does.

## Model

| member | source | states |
|---|---|---|
| Lists.RemoveFirst | services/core/java/com/android/server/tv/TvInputManagerService.java:592-600 | `ArrayList.remove(Object)`: an absent element leaves the list alone; a present one shortens it by exactly one; nothing new appears |
| Lists.RemoveFirstAt | services/core/java/com/android/server/am/TaskRecord.java:375 | removing the element at its first occurrence k yields the list without index k |
| Lists.RemoveFirstKeepsOthers | services/core/java/com/android/server/am/TaskRecord.java:398 | removal affects membership of that element only |
| Lists.InsertAt | services/core/java/com/android/server/am/TaskRecord.java:389 | `ArrayList.add(index, e)` throws `IndexOutOfBoundsException` exactly when the index is negative or past the size; otherwise the element lands at the index with the prefix and suffix kept |
| Lists.RemoveFirstOfNoDuplicates | services/core/java/com/android/server/am/TaskRecord.java:397-410 | in a duplicate-free list, removing an element deletes its position and keeps the list duplicate-free |
| Lists.RemoveFirstKeepsNoDuplicates | services/core/java/com/android/server/am/TaskRecord.java:397-410 | after removal from a duplicate-free list, the element is gone entirely |
| Lists.InsertKeepsNoDuplicates | services/core/java/com/android/server/am/TaskRecord.java:373-395 | inserting an absent element keeps the list duplicate-free |
| Lists.RemoveInserted | services/core/java/com/android/server/am/TaskRecord.java:373-395 | removing what was just inserted gives back the original list |
| TvClient.NextSeq | media/java/android/media/tv/TvInputManager.java:540 | `mNextSeq++` on a Java `int`: stays in 32-bit range and wraps from `MAX_VALUE` to `MIN_VALUE` |
| TvClient.Finish | media/java/android/media/tv/TvInputManager.java:904-924 | an event completes exactly when its sequence number is pending; then its token is reported with the handled flag and it leaves the table; afterwards it is never pending |
| TvClient.FinishAtMostOnce | media/java/android/media/tv/TvInputManager.java:904-924 | a second finish of the same event reports nothing |
| TvClient.FinishAllCompletesEachOnce | media/java/android/media/tv/TvInputManager.java:942-952 | finishing a list of sequence numbers completes exactly the pending ones among them, once each, and leaves exactly the rest pending |
| TvClient.TimeoutMessageAsWritten | media/java/android/media/tv/TvInputManager.java:892 | the timeout message is built with the event as object and `arg1` left 0 |
| TvClient.TimeoutMessageFor | media/java/android/media/tv/TvInputManager.java:1006-1008 | the timeout message carries the event's sequence number in `arg1`, the field the handler reads |
| TvClient.TimeoutAsWrittenMissesEvent | media/java/android/media/tv/TvInputManager.java:1006-1008 | with the message as written, a timed-out event stays pending, and something is completed only when an event numbered 0 is pending |
| TvClient.TimeoutForCompletesEvent | media/java/android/media/tv/TvInputManager.java:1006-1008 | with the corrected message, the timeout completes exactly that event, as not handled |
| TvClient.WithoutFlushes | media/java/android/media/tv/TvInputManager.java:943 | `removeMessages(MSG_FLUSH_INPUT_EVENT)` keeps every other message and drops every flush |
| TvClient.WithoutTimeoutOf | media/java/android/media/tv/TvInputManager.java:919 | `removeMessages(MSG_TIMEOUT_INPUT_EVENT, p)` drops exactly the timeout messages of that event |
| TvClient.FirstRecordOf | media/java/android/media/tv/TvInputManager.java:504-510 | finds the first listener record for the listener, or reports that there is none |
| TvClient.StateChangedPosts | media/java/android/media/tv/TvInputManager.java:419-427 | one post per listener record, in list order, carrying the input id and the state |
| TvClient.TvInputManager.constructor | media/java/android/media/tv/TvInputManager.java:321-438 | empty tables, sequence 0, and one `registerCallback` call for the user |
| TvClient.TvInputManager.CreateSession | media/java/android/media/tv/TvInputManager.java:527-547 | a missing input id, callback or handler throws `IllegalArgumentException` and changes nothing; otherwise a record is stored under the current sequence number, the counter advances with wrap-around, and one `createSession` call goes out; without wrap-around the number was fresh |
| TvClient.TvInputManager.OnSessionCreated | media/java/android/media/tv/TvInputManager.java:326-340 | an unknown sequence number is ignored; otherwise a session exists exactly when a token came, it is recorded and posted to the callback |
| TvClient.TvInputManager.OnSessionReleased | media/java/android/media/tv/TvInputManager.java:344-355 | the record is always removed; a record whose session was never created throws `NullPointerException`; otherwise the session is released internally (token and channel cleared, its pending events and completions kept, its handler queue as `releaseInternal` leaves it) and the release is posted; every other session is untouched |
| TvClient.TvInputManager.OnSessionEvent | media/java/android/media/tv/TvInputManager.java:358-416 | an event for a known sequence number is posted to that record's callback; unknown ones are dropped |
| TvClient.TvInputManager.OnInputStateChanged | media/java/android/media/tv/TvInputManager.java:419-427 | the state map takes the new state, and every listener record gets one post, in order |
| TvClient.TvInputManager.GetInputState | media/java/android/media/tv/TvInputManager.java:460-471 | `IllegalArgumentException` exactly when the id is null or unknown; otherwise the stored state |
| TvClient.TvInputManager.RegisterListener | media/java/android/media/tv/TvInputManager.java:480-491 | null arguments throw `IllegalArgumentException` and change nothing; otherwise one record is appended |
| TvClient.TvInputManager.UnregisterListener | media/java/android/media/tv/TvInputManager.java:498-512 | a null listener throws; otherwise the first record of that listener is removed |
| TvClient.UnregisterRemovesAtMostOne | media/java/android/media/tv/TvInputManager.java:504-510 | the list is unchanged exactly when the listener has no record; otherwise exactly one of its records is removed and the others keep their order |
| TvClient.Session.constructor | media/java/android/media/tv/TvInputManager.java:579-587 | the session holds its token, channel, manager and sequence number, with nothing pending |
| TvClient.Session.Release | media/java/android/media/tv/TvInputManager.java:592-604 | an already released session does nothing; otherwise one `releaseSession` call, the record is dropped, the pending events are flushed, and the pending events and completions are kept |
| TvClient.Session.ReleaseInternal | media/java/android/media/tv/TvInputManager.java:972-988 | token and channel cleared and the record dropped; when the session had an event sender, old flushes are removed and one flush is queued per pending event |
| TvClient.FlushMessages | media/java/android/media/tv/TvInputManager.java:945-951 | the loop over the pending events gives exactly one flush message per pending sequence number, in ascending order, and no other message |
| TvClient.Session.FlushPendingEventsLocked | media/java/android/media/tv/TvInputManager.java:942-952 | old flush messages removed and one flush message queued per pending event, in ascending order of sequence number as the sparse array's keys go |
| TvClient.ReleaseQueuesAFlushPerPendingEvent | media/java/android/media/tv/TvInputManager.java:942-952 | after a release, every pending event has a flush message whose handling completes it as not handled |
| TvClient.Session.DispatchInputEvent | media/java/android/media/tv/TvInputManager.java:827-857 | a null event, or a callback without a handler, throws `IllegalArgumentException`; in progress exactly when a channel exists and the send succeeds, in which case the event is pending, remembering whether it has a callback and a handler, with the corrected timeout of `TvClient.TimeoutMessageFor` queued (not the message as written at line 892); otherwise nothing is queued; every dispatch that reaches a channel leaves it with a sender, even when the send fails, and a throwing dispatch leaves the channel as it was |
| TvClient.Session.SendInputEventOnMainLooperLocked | media/java/android/media/tv/TvInputManager.java:882-902 | in progress exactly when a channel exists and the send succeeds; only then is the event recorded and the corrected timeout of `TvClient.TimeoutMessageFor` queued |
| TvClient.Session.FinishedInputEvent | media/java/android/media/tv/TvInputManager.java:904-924 | a sequence number that is not pending is ignored; otherwise it stops being pending and, unless this is the timeout, its timeout message is removed; an event dispatched without a callback then throws `NullPointerException`, any other completes once with the handled flag |
| TvClient.Session.HandleMessage | media/java/android/media/tv/TvInputManager.java:1000-1016 | the handled message leaves the queue; a timeout or flush message finishes the event named by its `arg1`, as not handled, throwing `NullPointerException` for an event without a callback; a flush of a pending event also withdraws that event's timeout |
| TvServer.NewUserState | services/core/java/com/android/server/tv/TvInputManagerService.java:1230-1252 | a new user state holds only the discovered inputs |
| TvServer.EmptyUserConsistent | services/core/java/com/android/server/tv/TvInputManagerService.java:1230-1252 | a new user state satisfies the table invariant |
| TvServer.UpdateServiceConnection | services/core/java/com/android/server/tv/TvInputManagerService.java:347-391 | binds exactly when the input is wanted (current user, clients or sessions) and not bound; unbinds and forgets the service exactly when it is no longer wanted; a reconnecting service with sessions is left untouched; touches no other input; keeps the invariant |
| TvServer.GetSessionStateLocked | services/core/java/com/android/server/tv/TvInputManagerService.java:318-330 | `IllegalStateException` for an unknown user, `IllegalArgumentException` for an unknown token, `SecurityException` for a caller other than the creator or the system uid; otherwise the stored session |
| TvServer.GetSessionLocked | services/core/java/com/android/server/tv/TvInputManagerService.java:332-339 | the same errors, plus `IllegalStateException` while the backend session has not been created yet |
| TvServer.LookupOnlyByCreatorOrSystem | services/core/java/com/android/server/tv/TvInputManagerService.java:318-339 | a successful lookup implies the caller is the system uid or the session's creator, and the backend session exists |
| TvServer.WithoutClientSession | services/core/java/com/android/server/tv/TvInputManagerService.java:589-596 | removes the token from its client and drops the client entry exactly when it becomes empty; other clients are untouched |
| TvServer.DropSession | services/core/java/com/android/server/tv/TvInputManagerService.java:575-603 | the session leaves the session table, its client and its service's token list; nothing else changes |
| TvServer.DropSessionConsistent | services/core/java/com/android/server/tv/TvInputManagerService.java:575-603 | dropping a session keeps the invariant and leaves no reference to its token |
| TvServer.RemoveSessionState | services/core/java/com/android/server/tv/TvInputManagerService.java:575-603 | an unknown token throws `NullPointerException`; otherwise the tables are those of `UpdateServiceConnection` on the input after the session is dropped, with the closed log entry before its events; an unbind is requested exactly when the remaining state no longer wants the service; services some client watches keep their entry; the invariant is kept |
| TvServer.ReleaseSessionLocked | services/core/java/com/android/server/tv/TvInputManagerService.java:562-573 | lookup errors propagate unchanged; otherwise the backend session (if created) is released first, and then the tables and events are those of `RemoveSessionState`, so the service is unbound exactly when the release left nothing wanting it; the invariant is kept |
| TvServer.RemoveLastSessionUnbinds | services/core/java/com/android/server/tv/TvInputManagerService.java:575-603 | under the invariant, removing a session requests an unbind exactly when it was the last session of a connected service no client watches, and exactly then the service entry is gone |
| TvServer.WithoutClientInput | services/core/java/com/android/server/tv/TvInputManagerService.java:605-614 | removes the input from the client and drops the client entry exactly when it becomes empty |
| TvServer.UnregisterClientInternal | services/core/java/com/android/server/tv/TvInputManagerService.java:605-637 | the client is removed from the input's client list; the backend callback is unregistered exactly when that empties the list of a connected service with a callback, and then the service is unbound and forgotten exactly when it has no sessions; a kept entry is the old one with the client removed, and without its callback exactly when it was unregistered; no other service is touched or unbound; sessions are untouched; the invariant is kept |
| TvServer.ForgetClient | services/core/java/com/android/server/tv/TvInputManagerService.java:605-622 | the client-table and service-table edits of unregistering, with the invariant kept |
| TvServer.ClientInputConsistent | services/core/java/com/android/server/tv/TvInputManagerService.java:605-614 | dropping an input from a client keeps the invariant |
| TvServer.DropCallback | services/core/java/com/android/server/tv/TvInputManagerService.java:624-636 | for a connected service with a callback and no client left: the callback is unregistered; the service is unbound and forgotten exactly when it has no sessions, and otherwise kept with only its callback gone; nothing else changes; the invariant is kept |
| TvServer.UnbindConsistent | services/core/java/com/android/server/tv/TvInputManagerService.java:382-390 | forgetting a service with no session and no client keeps the invariant |
| TvServer.BindingConsistent | services/core/java/com/android/server/tv/TvInputManagerService.java:361-381 | changing a service's binding fields keeps the invariant |
| TvServer.SessionCreatedAsWritten | services/core/java/com/android/server/tv/TvInputManagerService.java:418-448 | the backend's answer as written, working on the session state it captured: for a registered session its client does not list yet it agrees with the corrected version |
| TvServer.SessionCreated | services/core/java/com/android/server/tv/TvInputManagerService.java:418-448 | an answer for a session that is gone changes nothing; a null session leaves the tables and events exactly as `removeSessionStateLocked` does, then sends a null token to the client; a real session is recorded, its client lists the token exactly once (where the code as written lists it again on a repeated answer), and its token is sent; the invariant is kept |
| TvServer.CreatedConsistent | services/core/java/com/android/server/tv/TvInputManagerService.java:434-441 | recording the created session in the session and client tables keeps the invariant |
| TvServer.LateSessionCreatedCorruptsClientTable | services/core/java/com/android/server/tv/TvInputManagerService.java:418-448 | a concrete consistent state where a late answer adds a token with no session to a client list (breaking the invariant), and where a late null answer throws `NullPointerException` |
| TvServer.RecreatedSessionListedTwice | services/core/java/com/android/server/tv/TvInputManagerService.java:418-448 | a concrete consistent state where an answer for an already created session, as written, lists the token twice in the client's list (breaking the invariant) and a second release then throws `IllegalArgumentException`; the corrected answer lists it once |
| TvServer.SessionBinderDiedAsWritten | services/core/java/com/android/server/tv/TvInputManagerService.java:1330-1343 | as written: a live session is released as by the corrected version; a session already removed still notifies the client and then throws `NullPointerException` |
| TvServer.DeathAfterReleaseThrows | services/core/java/com/android/server/tv/TvInputManagerService.java:1330-1343 | after any successful `releaseSession`, the binder death of that session throws |
| TvServer.SessionBinderDied | services/core/java/com/android/server/tv/TvInputManagerService.java:1330-1343 | a session that is gone is ignored; otherwise the client is told first, then the tables and events are exactly as `removeSessionStateLocked` leaves them, with the invariant kept |
| TvServer.SessionGoneUnbinds | services/core/java/com/android/server/tv/TvInputManagerService.java:424-427 | under the invariant, a null answer from the backend and a session binder death each unbind and forget the session's service exactly when it was that service's last session, no client watches it and it is connected |
| TvServer.VisitLiveAsWritten | services/core/java/com/android/server/tv/TvInputManagerService.java:1406-1414 | iterating the live token list while removing from it, on OpenJDK's or on Android libcore's ArrayList iterator: with nothing to remove it visits the whole rest of the list |
| TvServer.DisconnectSkipsSecondPending | services/core/java/com/android/server/tv/TvInputManagerService.java:1406-1414 | with two pending sessions the loop answers only the first on either iterator; OpenJDK's then ends the loop and libcore's throws `ConcurrentModificationException` |
| TvServer.DisconnectSinglePendingDependsOnIterator | services/core/java/com/android/server/tv/TvInputManagerService.java:1406-1414 | with one pending session the loop answers it, then ends on libcore's iterator and throws `ConcurrentModificationException` on OpenJDK's |
| TvServer.DisconnectThrowsWithTwoAfterPending | services/core/java/com/android/server/tv/TvInputManagerService.java:1406-1414 | with a pending session followed by two more, the loop throws `ConcurrentModificationException` on either iterator |
| TvServer.CreateSessionLocked | services/core/java/com/android/server/tv/TvInputManagerService.java:743-772 | `NullPointerException` exactly when the input is unknown to both tables; a reconnecting service answers with a null token and changes nothing; otherwise the session is stored with its caller, joins its service's list, and is requested from a connected backend or triggers a bind |
| TvServer.PendingSessionConsistent | services/core/java/com/android/server/tv/TvInputManagerService.java:756-765 | adding a pending session to the session and service tables keeps the invariant |
| TvServer.SessionFieldsConsistent | services/core/java/com/android/server/tv/TvInputManagerService.java:1309-1328 | changing a session's other fields keeps the invariant |
| TvServer.ReleaseFirstSession | services/core/java/com/android/server/tv/TvInputManagerService.java:1278-1281 | releasing a dying client's first session always succeeds, removes that session from the client, and shortens the client's list |
| TvServer.ReleaseClientSessions | services/core/java/com/android/server/tv/TvInputManagerService.java:1276-1281 | the session loop of a dying client releases every session the client owns and nothing else: each one's backend session is released, the other clients are untouched, services some client watches keep their entry, and the invariant is kept; a service is unbound and forgotten exactly when it is connected, no client watches it and the client's sessions were all of its sessions; a kept entry loses just those sessions; an entry that listed none of them is unchanged |
| TvServer.ClientEntryNotEmpty | services/core/java/com/android/server/tv/TvInputManagerService.java:1266 | a client entry kept in a consistent table is never empty |
| TvServer.UnregisterClientInputs | services/core/java/com/android/server/tv/TvInputManagerService.java:1282-1285 | the input loop of a dying client leaves it in no service's client list and drops its entry; the backend callback of every connected service it alone watched is unregistered; a service is unbound and forgotten exactly when the client was the sole watcher of it while it was connected with a callback and had no session; a kept entry is as `unregisterClientInternalLocked` leaves it; an entry the client did not watch is unchanged; sessions are untouched; the invariant is kept |
| TvServer.ClientDied | services/core/java/com/android/server/tv/TvInputManagerService.java:1276-1285 | both loops of a dying client together: its sessions and its client entry are gone and it is in no service's client list; every backend session it held is released and every callback only it watched is unregistered; a service is unbound and forgotten exactly when it is connected, has no session once the client's are gone, and had no client or the client as its sole watcher with a callback; a kept entry has the client and its sessions removed and keeps its backend, losing its callback exactly when the client was its sole watcher; an entry neither watched by the client nor listing its sessions is unchanged; the invariant is kept |
| TvServer.BroadcastStateChange | services/core/java/com/android/server/tv/TvInputManagerService.java:646-653 | every registered callback is told the state, once |
| TvServer.ReplayInputStates | services/core/java/com/android/server/tv/TvInputManagerService.java:707-712 | a new callback is told the state of every known input, once each |
| TvServer.SessionRequests | services/core/java/com/android/server/tv/TvInputManagerService.java:1372-1374 | one backend session request per token listed in the service's session list, created or not, in order |
| TvServer.RequestSessions | services/core/java/com/android/server/tv/TvInputManagerService.java:1372-1374 | the loop issues exactly those requests |
| TvServer.ServiceConnectedLocked | services/core/java/com/android/server/tv/TvInputManagerService.java:1360-1385 | an input without a service state throws `NullPointerException`; otherwise the service is stored, a callback is registered exactly when clients exist and none is registered, every session listed for the service is requested, and the input's state is broadcast unless it is disconnected |
| TvServer.ConnectedCalls | services/core/java/com/android/server/tv/TvInputManagerService.java:1364-1385 | the calls of a connection, in order: callback registration, session requests, state broadcast |
| TvServer.AnswerPending | services/core/java/com/android/server/tv/TvInputManagerService.java:1408-1412 | a session still waiting for its backend is removed exactly as `RemoveSessionState` removes it, and then answered with a null token; anything else is left alone |
| TvServer.ServiceDisconnectedLocked | services/core/java/com/android/server/tv/TvInputManagerService.java:1399-1419 | the tables are those of the connection update applied after the waiting sessions are removed and the service is marked reconnecting and unbound; exactly one null token per waiting session and no other token is sent; the sessions that remain are created; every callback learns the input is disconnected; other inputs are untouched; the invariant is kept |
| TvServer.UpdateSettles | services/core/java/com/android/server/tv/TvInputManagerService.java:347-391 | updating a service connection twice gives the same tables as updating it once |
| TvServer.ReleaseBackendSessions | services/core/java/com/android/server/tv/TvInputManagerService.java:269-278 | every created backend session of the user is released |
| TvServer.TearDownServices | services/core/java/com/android/server/tv/TvInputManagerService.java:281-292 | every registered backend callback is unregistered and every service is unbound |
| TvServer.BuildTvInputList | services/core/java/com/android/server/tv/TvInputManagerService.java:204-238 | the input map keeps the states of inputs still discovered and gives new ones the connected state; each discovered input's service entry is the one its connection update gives, the others are kept; a bind is requested for each input that wants one and an unbind for each that no longer does, and nothing else; the invariant is kept |
| TvServer.TvInputManagerService.Cx | services/core/java/com/android/server/tv/TvInputManagerService.java:102 | the context carries the user, the current user and the bind result |
| TvServer.TvInputManagerService.constructor | services/core/java/com/android/server/tv/TvInputManagerService.java:108-120 | the owner user starts with the discovered inputs and nothing else |
| TvServer.TvInputManagerService.SwitchUser | services/core/java/com/android/server/tv/TvInputManagerService.java:244-260 | switching to the current user is a no-op; otherwise the user becomes current, gets a fresh state if it had none, and its input list is rebuilt from the discovered inputs with each of their service connections updated and the bind and unbind requests logged; other users are untouched; the invariant is kept |
| TvServer.TvInputManagerService.OnSomePackagesChanged | services/core/java/com/android/server/tv/TvInputManagerService.java:139-146 | a current user without tables throws `IllegalStateException` and changes nothing; otherwise that user's input list is rebuilt as by `BuildTvInputList` |
| TvServer.TvInputManagerService.RebuildInputList | services/core/java/com/android/server/tv/TvInputManagerService.java:204-238 | the user's tables are rebuilt as by `BuildTvInputList`, the log grows by its requests, and other users are untouched |
| TvServer.TvInputManagerService.NotifyStateChangedLocked | services/core/java/com/android/server/tv/TvInputManagerService.java:639-661 | with a target, only that callback is told; otherwise every registered callback is told |
| TvServer.TvInputManagerService.RegisterCallback | services/core/java/com/android/server/tv/TvInputManagerService.java:701-717 | an unknown user throws `IllegalStateException`; otherwise the callback joins the set and is told every input's state |
| TvServer.TvInputManagerService.UnregisterCallback | services/core/java/com/android/server/tv/TvInputManagerService.java:720-732 | an unknown user throws `IllegalStateException`; otherwise the callback leaves the set |
| TvServer.TvInputManagerService.SetStateLocked | services/core/java/com/android/server/tv/TvInputManagerService.java:663-678 | an unknown user throws `IllegalStateException`; an input missing from the input map or with no service state throws `NullPointerException`; the state is stored; callbacks are told only when the service is not awaiting a connection and the state actually changed |
| TvServer.TvInputManagerService.CreateSession | services/core/java/com/android/server/tv/TvInputManagerService.java:735-777 | an unknown user throws `IllegalStateException`; otherwise a fresh token goes through `CreateSessionLocked`, whose error or new tables and events become the service's |
| TvServer.TvInputManagerService.ReleaseSession | services/core/java/com/android/server/tv/TvInputManagerService.java:780-792 | the lookup error, or the new tables and events of `ReleaseSessionLocked`, including its unbind |
| TvServer.TvInputManagerService.Tune | services/core/java/com/android/server/tv/TvInputManagerService.java:839-889 | lookup errors propagate and change nothing; otherwise the backend is tuned and the previous log entry is closed; when the session's input is no longer in the input map, `NullPointerException` follows with the session unchanged and no entry opened; otherwise a new entry is opened and the session records it |
| TvServer.TvInputManagerService.OnSessionCreated | services/core/java/com/android/server/tv/TvInputManagerService.java:418-448 | the corrected backend answer applied to the user's tables |
| TvServer.TvInputManagerService.OnSessionBinderDied | services/core/java/com/android/server/tv/TvInputManagerService.java:1330-1343 | the corrected session binder death applied to the user's tables |
| TvServer.TvInputManagerService.ClientBinderDied | services/core/java/com/android/server/tv/TvInputManagerService.java:1271-1289 | an unknown user throws `IllegalStateException`; otherwise every session of the client is removed with its backend session released, the client leaves the client table and every service's client list, the callback of each connected service it alone watched is unregistered, the service table is as `TvServer.ClientDied` states, and inputs, callbacks and other users are untouched |
| TvServer.TvInputManagerService.OnServiceConnected | services/core/java/com/android/server/tv/TvInputManagerService.java:1355-1387 | an unknown user throws `IllegalStateException`; an unknown service throws `NullPointerException`; otherwise the service is recorded, the callback is registered if clients exist, and every session listed for the service is requested |
| TvServer.TvInputManagerService.OnServiceDisconnected | services/core/java/com/android/server/tv/TvInputManagerService.java:1389-1421 | a mismatched component throws `IllegalArgumentException`; otherwise the user's tables become those of `ServiceDisconnectedLocked`: the waiting sessions removed with one null token each, callbacks told the input is disconnected, the connection updated, other inputs and users untouched |
| TvServer.TvInputManagerService.RemoveUser | services/core/java/com/android/server/tv/TvInputManagerService.java:262-297 | an unknown user is a no-op; otherwise all created sessions are released, then callbacks are unregistered and services unbound, and the user's state is removed |
| ActivityTasks.FullscreenCount | services/core/java/com/android/server/am/TaskRecord.java:90 | the number of fullscreen activities, bounded by the list length |
| ActivityTasks.FullscreenCountZero | services/core/java/com/android/server/am/TaskRecord.java:90 | the count is 0 exactly when no activity is fullscreen |
| ActivityTasks.FullscreenCountAppend | services/core/java/com/android/server/am/TaskRecord.java:90 | the count is additive over concatenation |
| ActivityTasks.FullscreenCountRemove | services/core/java/com/android/server/am/TaskRecord.java:397-400 | removing a present fullscreen activity lowers the count by one; removing anything else keeps it |
| ActivityTasks.FullscreenCountInsert | services/core/java/com/android/server/am/TaskRecord.java:389 | inserting an activity raises the count by one exactly when it is fullscreen |
| ActivityTasks.InsertFacts | services/core/java/com/android/server/am/TaskRecord.java:373-395 | inserting an absent activity keeps the list duplicate-free, adds it, can be undone by removal, and counts it |
| ActivityTasks.RootIndexFrom | services/core/java/com/android/server/am/TaskRecord.java:297-307 | the first non-finishing activity from a position, or -1 exactly when all are finishing |
| ActivityTasks.TopIndexBelow | services/core/java/com/android/server/am/TaskRecord.java:309-318 | the last non-finishing activity below a position, or -1 exactly when all are finishing |
| ActivityTasks.GetRootActivity | services/core/java/com/android/server/am/TaskRecord.java:297-307 | null exactly when every activity is finishing; otherwise the lowest non-finishing one |
| ActivityTasks.GetTopActivity | services/core/java/com/android/server/am/TaskRecord.java:309-318 | null exactly when every activity is finishing; otherwise the highest non-finishing one |
| ActivityTasks.HistoryIndexBelow | services/core/java/com/android/server/am/TaskRecord.java:546-558 | the highest non-finishing activity with that component, or -1 exactly when there is none |
| ActivityTasks.FindActivityInHistoryLocked | services/core/java/com/android/server/am/TaskRecord.java:546-558 | null exactly when no non-finishing activity has the component; otherwise the topmost one that does |
| ActivityTasks.FindEffectiveRootIndex | services/core/java/com/android/server/am/TaskRecord.java:609-622 | every activity below the result is finishing or relinquishes identity; the result does neither unless it is the topmost |
| ActivityTasks.EffectiveRootIsRoot | services/core/java/com/android/server/am/TaskRecord.java:609-622 | when the root activity keeps its identity, it is the effective root |
| ActivityTasks.FirstUnset | services/core/java/com/android/server/am/TaskRecord.java:331-349 | the first unset flag from a position, or -1 exactly when all are set |
| ActivityTasks.FrontIndex | services/core/java/com/android/server/am/TaskRecord.java:331-349 | the lowest non-finishing position, or 0 when all are finishing |
| ActivityTasks.FinishingFlags | services/core/java/com/android/server/am/TaskRecord.java:331-349 | the finishing flags of the activities, position by position |
| ActivityTasks.ClampMaxRecents | services/core/java/com/android/server/am/TaskRecord.java:384 | the declared recents limit clamped into 1..100 |
| ActivityTasks.ClearedActivities | services/core/java/com/android/server/am/TaskRecord.java:425-446 | clearing never lengthens the list |
| ActivityTasks.ClearedActivitiesAreFinishing | services/core/java/com/android/server/am/TaskRecord.java:425-446 | after a clear, only activities that were finishing remain |
| ActivityTasks.ClearedActivitiesNoneFinishing | services/core/java/com/android/server/am/TaskRecord.java:425-446 | when no activity is finishing, clearing empties the list |
| ActivityTasks.ClearedActivitiesAllFinishing | services/core/java/com/android/server/am/TaskRecord.java:425-446 | when every activity is finishing, clearing keeps them all |
| ActivityTasks.TaskRecord.constructor | services/core/java/com/android/server/am/TaskRecord.java:137-147 | a new task is empty, with no fullscreen activities, application type and no recents limit; it never relinquishes its identity unless the activity's info allows it |
| ActivityTasks.TaskRecord.Restore | services/core/java/com/android/server/am/TaskRecord.java:149-178 | a restored task holds the given activities, type, times and identity flag and returns to home |
| ActivityTasks.TaskRecord.TouchActiveTime | services/core/java/com/android/server/am/TaskRecord.java:180-185 | the last active time becomes now; the first active time is set only once |
| ActivityTasks.TaskRecord.SetIntent | services/core/java/com/android/server/am/TaskRecord.java:190-250 | a task that has an intent and never relinquishes its identity keeps its intent; otherwise the intent and its flags come from the activity, with the auto-remove flag also set when the activity's info asks for it, and a task with no intent yet first records whether the activity's info forbids relinquishing |
| ActivityTasks.TaskRecord.UpdateEffectiveIntent | services/core/java/com/android/server/am/TaskRecord.java:624-628 | `SetIntent` with the effective root activity: a task that has an intent and never relinquishes its identity keeps it; otherwise the intent comes from that activity |
| ActivityTasks.TaskRecord.SetFrontOfTask | services/core/java/com/android/server/am/TaskRecord.java:331-349 | exactly one activity is front of task: the lowest non-finishing one, or the bottom one when all are finishing |
| ActivityTasks.TaskRecord.AdoptActivityType | services/core/java/com/android/server/am/TaskRecord.java:379-388 | the first activity of an empty task gives the task its type, persistability and clamped recents limit; later ones take the task's type |
| ActivityTasks.TaskRecord.TakeOut | services/core/java/com/android/server/am/TaskRecord.java:375-377 | the activity is removed; `numFullscreen` is bumped when a fullscreen activity was absent |
| ActivityTasks.TaskRecord.AddActivityAtIndexAsWritten | services/core/java/com/android/server/am/TaskRecord.java:373-395 | as written: `IndexOutOfBoundsException` exactly when the index exceeds the list after removal, leaving the activity removed; otherwise it is inserted at the index with the effective intent updated |
| ActivityTasks.TaskRecord.InsertOrThrow | services/core/java/com/android/server/am/TaskRecord.java:389-390 | the insertion throws exactly for an out-of-range index and otherwise places the activity and updates the intent |
| ActivityTasks.TaskRecord.AddActivityAtIndex | services/core/java/com/android/server/am/TaskRecord.java:373-395 | the activity ends at the index, clamped to the list end, exactly once; `numFullscreen` rises only for a fullscreen activity that was absent, so its gap to the true count is unchanged; type and recents limit as on any add; the effective intent is updated |
| ActivityTasks.TaskRecord.AddActivityAtBottom | services/core/java/com/android/server/am/TaskRecord.java:365-367 | the activity becomes the bottom one and is not repeated; the count grows only for a new fullscreen activity; the first activity gives the task its type, persistability and clamped recents limit, a later one takes the task's type; the intent is set from the effective root |
| ActivityTasks.TaskRecord.AddActivityToTop | services/core/java/com/android/server/am/TaskRecord.java:369-371 | the activity becomes the top one and is not repeated; the count, type fields and intent change as for `AddActivityAtBottom`; an activity already in the task moves to the top through the corrected clamped insertion of `AddActivityAtIndex`, where the code as written throws |
| ActivityTasks.TaskRecord.RemoveActivity | services/core/java/com/android/server/am/TaskRecord.java:397-410 | the activity is gone; a fullscreen one lowers the count; the result says the task is now empty and not reused |
| ActivityTasks.TaskRecord.MoveActivityToFrontLocked | services/core/java/com/android/server/am/TaskRecord.java:354-363 | the activity moves to the top, the front-of-task marker is recomputed, and the intent is updated |
| ActivityTasks.TaskRecord.MoveToTop | services/core/java/com/android/server/am/TaskRecord.java:358-359 | the activity moves to the top and no other activity enters the list |
| ActivityTasks.TaskRecord.AutoRemoveFromRecents | services/core/java/com/android/server/am/TaskRecord.java:412-419 | removed when the intent asks for it, or when the task is empty and was never visible |
| ActivityTasks.TaskRecord.IsOverHomeStack | services/core/java/com/android/server/am/TaskRecord.java:538-540 | true exactly when the task returns to home or recents |
| ActivityTasks.TaskRecord.PerformClearTaskAtIndexLocked | services/core/java/com/android/server/am/TaskRecord.java:425-446 | the activities below the index stay; from the index up only those that were finishing stay |
| ActivityTasks.TaskRecord.PerformClearTaskLocked | services/core/java/com/android/server/am/TaskRecord.java:449-453 | the task is no longer reused and is cleared from its root |
| ActivityTasks.AddToTopOfPresentActivityThrows | services/core/java/com/android/server/am/TaskRecord.java:369-389 | adding to the top an activity already in the task makes the insertion index one past the end, which throws |
| ActivityTasks.HexDigitValue | services/core/java/com/android/server/am/TaskRecord.java:653 | the value of a hex digit, or -1; signs are never digits |
| ActivityTasks.LowerHexDigit | services/core/java/com/android/server/am/TaskRecord.java:639 | the digit written for a value reads back as that value |
| ActivityTasks.ParseLongHex | services/core/java/com/android/server/am/TaskRecord.java:653 | `Long.parseLong(s, 16)`: a result fits in a long; empty or sign-only input throws `NumberFormatException` |
| ActivityTasks.ToInt32 | services/core/java/com/android/server/am/TaskRecord.java:653 | the `(int)` cast keeps the value modulo 2^32 |
| ActivityTasks.Unsigned | services/core/java/com/android/server/am/TaskRecord.java:637-639 | the unsigned reading of an int is in 0..2^32 and congruent to it |
| ActivityTasks.UnsignedHex | services/core/java/com/android/server/am/TaskRecord.java:639 | non-empty hex digits with no leading zero |
| ActivityTasks.ToHexString | services/core/java/com/android/server/am/TaskRecord.java:639 | `Integer.toHexString` gives non-empty hex digits |
| ActivityTasks.UnsignedHexValue | services/core/java/com/android/server/am/TaskRecord.java:639 | the digits written for a number read back as that number |
| ActivityTasks.HexColorRoundTrip | services/core/java/com/android/server/am/TaskRecord.java:630-658 | the saved colour parses back, and the cast gives back the original colour |
| ActivityTasks.CastOfUnsigned | services/core/java/com/android/server/am/TaskRecord.java:653 | casting the unsigned value back to int is the identity |
| ActivityTasks.ReadTaskDescriptionAttribute | services/core/java/com/android/server/am/TaskRecord.java:648-658 | the label attribute sets the label; the colour attribute throws `NumberFormatException` exactly when it does not parse and otherwise sets the colour modulo 2^32; other attributes are not recognised and change nothing |
| ActivityTasks.SaveTaskDescription | services/core/java/com/android/server/am/TaskRecord.java:630-646 | the label attribute is written exactly when there is a label, and carries it; the colour attribute exactly when the colour is not 0, and carries its hex string; nothing else |
| ActivityTasks.ReadAttributes | services/core/java/com/android/server/am/TaskRecord.java:737-772 | reads the description attributes last to first and stops at the first NumberFormatException: it fails exactly when some color attribute is malformed, and attributes that are not the description's leave it unchanged; reading the saved attributes gives back the description (TaskDescriptionRoundTrip) |
| ActivityTasks.TaskDescriptionRoundTrip | services/core/java/com/android/server/am/TaskRecord.java:630-658 | reading back the saved attributes restores the task description |
| HdmiControl.IndexOfId | services/core/java/com/android/server/hdmi/HdmiControlService.java:338-348 | the first port with the id, or -1 exactly when none has it |
| HdmiControl.IndexOfAddress | services/core/java/com/android/server/hdmi/HdmiControlService.java:368-376 | the first port with the address, or -1 exactly when none has it |
| HdmiControl.GetPortInfo | services/core/java/com/android/server/hdmi/HdmiControlService.java:338-348 | null exactly when no port has the id; otherwise the first such port |
| HdmiControl.PortIdToPath | services/core/java/com/android/server/hdmi/HdmiControlService.java:353-360 | the address of the first port with the id, or the invalid physical address |
| HdmiControl.PathToPortId | services/core/java/com/android/server/hdmi/HdmiControlService.java:368-376 | the id of the first port whose address is the path's top port, or the invalid port id |
| HdmiControl.PortIdPathRoundTrip | services/core/java/com/android/server/hdmi/HdmiControlService.java:353-376 | in a well-formed table, id → path → id is the identity |
| HdmiControl.PathPortIdRoundTrip | services/core/java/com/android/server/hdmi/HdmiControlService.java:353-376 | in a well-formed table, a path that maps to a port maps back to its top-port address |
| HdmiControl.SameTopPortSamePortId | services/core/java/com/android/server/hdmi/HdmiControlService.java:1160-1163 | paths under the same top port map to the same port id |
| HdmiControl.HasSameTopPort | services/core/java/com/android/server/hdmi/HdmiControlService.java:1160-1163 | true exactly when the two physical addresses have the same first digit, the TV input port (HDMI 1.4 Supplement 1, section 8.7) |
| HdmiControl.HasSameTopPortIsEquivalence | services/core/java/com/android/server/hdmi/HdmiControlService.java:1160-1163 | having the same top port is reflexive, symmetric and transitive |
| HdmiControl.IsConnectedToArcPort | services/core/java/com/android/server/hdmi/HdmiControlService.java:431-439 | true exactly when some ARC-capable port shares the address's top port |
| HdmiControl.ArcPortIsPortOfPath | services/core/java/com/android/server/hdmi/HdmiControlService.java:431-439 | in a well-formed table, that is the same as the path's port existing and supporting ARC |
| HdmiControl.CheckPollStrategy | services/core/java/com/android/server/hdmi/HdmiControlService.java:532-542 | `IllegalArgumentException` exactly when either strategy field is zero; otherwise just those two fields are kept |
| HdmiControl.CheckPollStrategyIdempotent | services/core/java/com/android/server/hdmi/HdmiControlService.java:532-542 | checking a checked strategy changes nothing |
| HdmiControl.InitPortInfo | services/core/java/com/android/server/hdmi/HdmiControlService.java:290-330 | no CEC table means no ports; otherwise one port per CEC port with its fields, and the MHL flag from the first MHL port with that id |
| HdmiControl.InitPortInfoIsCecTable | services/core/java/com/android/server/hdmi/HdmiControlService.java:303-330 | with the MHL table empty, as the service builds it, the port table is the CEC table |
| HdmiControl.InitPortInfoKeepsWellFormed | services/core/java/com/android/server/hdmi/HdmiControlService.java:290-330 | a well-formed CEC table gives a well-formed port table |
| HdmiControl.DispatchMessageToLocalDevice | services/core/java/com/android/server/hdmi/HdmiControlService.java:484-497 | handled exactly when the message is not a broadcast and some device accepts it; the first accepting device stops the offer |
| HdmiControl.PowerAfter | services/core/java/com/android/server/hdmi/HdmiControlService.java:1188-1260 | screen off leads to standby or transient-to-standby, screen on to on or transient-to-on; settled states are only reached from the matching transient state; pending actions cleared turns transient-to-standby into standby, completed allocation turns transient-to-on into on, and each leaves every other status unchanged |
| HdmiControl.TypeSetCardinalityBound | services/core/java/com/android/server/hdmi/HdmiControlService.java:266-271 | there are never more distinct device types than devices |
| HdmiControl.DistinctTypesCardinality | services/core/java/com/android/server/hdmi/HdmiControlService.java:266-271 | distinct device types give as many types as devices |
| HdmiControl.AllocationCompletion | services/core/java/com/android/server/hdmi/HdmiControlService.java:266-271 | with distinct types, the size test means every type finished; with a repeated type it never passes |
| HdmiControl.RepeatedTypeShrinksSet | services/core/java/com/android/server/hdmi/HdmiControlService.java:266-271 | a repeated device type leaves fewer distinct types than devices |
| HdmiControl.AllocationRequests | services/core/java/com/android/server/hdmi/HdmiControlService.java:241-276 | one allocation request per local device, in order |
| HdmiControl.HdmiControlService.constructor | services/core/java/com/android/server/hdmi/HdmiControlService.java:194-239 | power starts transient-to-on; with CEC, service control is enabled, ports come from the CEC table and every device asks for an address; the power receiver is registered when any controller exists |
| HdmiControl.HdmiControlService.OnAllocated | services/core/java/com/android/server/hdmi/HdmiControlService.java:253-271 | the type's address is recorded; a device is created unless the address is unregistered; when all have answered, power completes and the addresses are announced |
| HdmiControl.HdmiControlService.Standby | services/core/java/com/android/server/hdmi/HdmiControlService.java:1212-1219 | the standby message is remembered and the device goes to sleep |
| HdmiControl.HdmiControlService.OnScreenOff | services/core/java/com/android/server/hdmi/HdmiControlService.java:1235-1241 | power moves towards standby; devices are told only when power was on or transient; without CEC that throws `NullPointerException` |
| HdmiControl.HdmiControlService.OnScreenOn | services/core/java/com/android/server/hdmi/HdmiControlService.java:1222-1232 | power moves towards on; when coming from standby with CEC, service control is enabled and addresses are allocated again |
| HdmiControl.HdmiControlService.OnPendingActionsCleared | services/core/java/com/android/server/hdmi/HdmiControlService.java:1249-1260 | only in transient-to-standby: devices stand by, CEC control is disabled, power settles to standby and the standby message is forgotten; without CEC that throws `NullPointerException` |
| QuickSettings.Layout | packages/SystemUI/src/com/android/systemui/qs/QSPanel.java:236-250 | the layout changes only row and column, and only of visible tiles |
| QuickSettings.LastVisible | packages/SystemUI/src/com/android/systemui/qs/QSPanel.java:236-250 | the last visible tile, or -1 |
| QuickSettings.ColumnCount | packages/SystemUI/src/com/android/systemui/qs/QSPanel.java:294-301 | the number of visible tiles in a row; zero exactly when the row has none |
| QuickSettings.LayoutKeepsInvariant | packages/SystemUI/src/com/android/systemui/qs/QSPanel.java:236-250 | the layout invariant holds after every tile |
| QuickSettings.LayoutCellsInRange | packages/SystemUI/src/com/android/systemui/qs/QSPanel.java:236-250 | every visible tile is in a column below the column count and a row below the row count |
| QuickSettings.LayoutRowsAreUniform | packages/SystemUI/src/com/android/systemui/qs/QSPanel.java:240-247 | rows never go backwards in list order, and a row never mixes dual and single tiles |
| QuickSettings.LayoutFillsInOrder | packages/SystemUI/src/com/android/systemui/qs/QSPanel.java:240-247 | the first visible tile is at row 0, column 0; each next visible tile is the next column or the start of the next row |
| QuickSettings.LayoutRowCount | packages/SystemUI/src/com/android/systemui/qs/QSPanel.java:236-250 | the row count is one past the last visible tile's row, or 0 |
| QuickSettings.LayoutRowSizes | packages/SystemUI/src/com/android/systemui/qs/QSPanel.java:236-250 | every counted row holds between 1 and the column count of visible tiles |
| QuickSettings.LastVisibleSameVisibility | packages/SystemUI/src/com/android/systemui/qs/QSPanel.java:236-250 | the last visible tile depends only on visibility |
| QuickSettings.ListeningEffects | packages/SystemUI/src/com/android/systemui/qs/QSPanel.java:124-129 | one call per tile when stopping, two when starting |
| QuickSettings.ListeningEffectsReachEveryTile | packages/SystemUI/src/com/android/systemui/qs/QSPanel.java:124-129 | every tile is told, and it is refreshed exactly when listening starts |
| QuickSettings.ListeningEffectsNeverRefreshWhenStopping | packages/SystemUI/src/com/android/systemui/qs/QSPanel.java:124-129 | stopping never refreshes a tile |
| QuickSettings.MeasureTiles | packages/SystemUI/src/com/android/systemui/qs/QSPanel.java:232-250 | the loop writes exactly the layout and counts its rows |
| QuickSettings.ListeningCalls | packages/SystemUI/src/com/android/systemui/qs/QSPanel.java:124-129 | the loop makes exactly the listening calls |
| QuickSettings.QSPanel.constructor | packages/SystemUI/src/com/android/systemui/qs/QSPanel.java:72-92 | no tiles, no detail, at least one column, one invalidation |
| QuickSettings.QSPanel.UpdateResources | packages/SystemUI/src/com/android/systemui/qs/QSPanel.java:98-111 | at least one column; invalidates exactly when the column count changes; the other dimensions are taken from resources |
| QuickSettings.QSPanel.SetCallback | packages/SystemUI/src/com/android/systemui/qs/QSPanel.java:94-96 | the callback is set or cleared |
| QuickSettings.QSPanel.AddTile | packages/SystemUI/src/com/android/systemui/qs/QSPanel.java:150-189 | the tile is appended hidden and refreshed |
| QuickSettings.QSPanel.SetTileVisibility | packages/SystemUI/src/com/android/systemui/qs/QSPanel.java:145-148 | only that tile's visibility changes |
| QuickSettings.QSPanel.RowTop | packages/SystemUI/src/com/android/systemui/qs/QSPanel.java:288-292 | the first row starts under the brightness view; a later row starts below the heights of the rows above it, stacked, less the dual row's underlap |
| QuickSettings.QSPanel.StackedRowsClosedForm | packages/SystemUI/src/com/android/systemui/qs/QSPanel.java:288-292 | the first rows stack to one dual-row height plus one cell height per further row |
| QuickSettings.QSPanel.RowTopsStack | packages/SystemUI/src/com/android/systemui/qs/QSPanel.java:288-292 | each row starts where the one above it ends, and only the dual row overlaps the next, by the underlap |
| QuickSettings.QSPanel.GetColumnCount | packages/SystemUI/src/com/android/systemui/qs/QSPanel.java:294-301 | zero exactly when the row has no visible tile |
| QuickSettings.QSPanel.OnMeasure | packages/SystemUI/src/com/android/systemui/qs/QSPanel.java:229-262 | the tiles take the layout; the height is the brightness view alone with no rows, or the brightness view plus the stacked row heights, less the underlap, plus the bottom padding |
| QuickSettings.QSPanel.HandleShowDetail | packages/SystemUI/src/com/android/systemui/qs/QSPanel.java:191-226 | showing needs no detail open and an adapter; an adapter with no view throws `IllegalStateException`; showing records the tile, hiding starts a teardown; in both cases the callback, if set, is told and the clip animates; everything else changes nothing |
| QuickSettings.QSPanel.OnClipAnimationEnd | packages/SystemUI/src/com/android/systemui/qs/QSPanel.java:337-342 | a finished hide clears the detail record |
| QuickSettings.QSPanel.SetExpanded | packages/SystemUI/src/com/android/systemui/qs/QSPanel.java:113-119 | the flag is set; collapsing hides the open detail; anything else changes nothing |
| QuickSettings.QSPanel.SetListening | packages/SystemUI/src/com/android/systemui/qs/QSPanel.java:121-135 | no change does nothing; otherwise every tile is told (and refreshed when starting), then the brightness controller |
| QuickSettings.QSPanel.OnToggleStateChanged | packages/SystemUI/src/com/android/systemui/qs/QSPanel.java:166-170 | only the tile whose detail is open reaches the callback |

## Left out

- Threads, locks and handlers. Each public entry point runs atomically. A message the Java posts to a handler is either delivered synchronously (for example the panel's `showDetail`) or queued as a value the model can deliver (the client session's timeout and flush messages).
- Binder calls and `RemoteException` paths. Calls into backends, clients and callbacks are appended to an event log. The catch blocks only log, so the model omits them. `linkToDeath` is omitted; binder deaths are methods called directly.
- Hash iteration order. `HashMap` and `HashSet` are maps and sets. The loops over them pick elements in an unspecified order, and the contracts hold for any order.
- Per-user records are values in a map, not shared objects. A callback that holds a `UserState` reference after the user was removed is not modelled.
- `buildTvInputListLocked`: the package-manager query, its permission and metadata checks, `TvInputInfo`, `packageSet` and `getTvInputList` are not modelled. The ids of the inputs found are a parameter, already filtered. The rebuild at boot is the constructor's `inputs` map.
- TvServer.UpdateServiceConnection and TvServer.BuildTvInputList: an input that a rebuild drops while its service entry remains is still bound or unbound by later connection updates. The code as written throws `NullPointerException` there, reading the missing input's info at TvInputManagerService.java:376. The invariant therefore does not require every service entry to have an input.
- TvServer.VisitLiveAsWritten and TvServer.DisconnectSkipsSecondPending: the ArrayList that the loop at TvInputManagerService.java:1406 iterates is not part of this model. Both OpenJDK's iterator and Android libcore's are modelled, because the outcome after a removal differs between them. Fail-fast detection, which the ArrayList documentation calls best-effort, is taken to fire every time.
- TvServer.ServiceDisconnectedLocked and TvServer.TvInputManagerService.OnServiceDisconnected: when a bind fails, the code requests the bind again for each session it answers and once more at the end. The contract states the final tables (the same, by `TvServer.UpdateSettles`) and that every bind request is for that input, but does not count them.
- TvServer.UpdateServiceConnection: `bindServiceAsUser` is not modelled; its result is a fixed parameter `bindSucceeds` of the service.
- The watch-log `ContentResolver` work in `LogHandler` is not modelled. Only the log entries opened and closed by `tune` and session removal are kept as events.
- TvInputHardwareManager and the hardware half of the service are not part of this model.
- `TvServer.TvInputManagerService.OnServiceConnected` re-requests every session in the service's list, including ones already created, as the Java does. Its contract states the requests and the stored service. It does not state the broadcast, which `TvServer.ServiceConnectedLocked` states.
- The client's non-main-looper dispatch path and the `PendingEvent` object pool are not modelled; only the main-looper path is.
- TvClient.Session.HandleMessage does not model delivery timing; any queued message can be handled.
- TaskRecord:
  - The branch of `performClearTaskAtIndexLocked` that goes through the activity stack is not modelled; only the restored-task branch is (stack is null).
  - `performClearTaskLocked(ActivityRecord, int)` is not modelled.
  - The task persister, XML serialization other than the task-description attributes, and thumbnails are not modelled.
  - `setIntent` keeps which activity the intent came from (`intentSource`), its auto-remove flag and the never-relinquish flag. The affinity, the component names, `rootWasReset`, the user id and the creator uid are not modelled. Every activity is taken to have an intent, so the `NullPointerException` of `intent.addFlags` (TaskRecord.java:247-249) when the intent ends up null is not modelled.
- ActivityTasks.ActivityRecord.constructor: a new activity is neither finishing nor front of task, which are the Java field defaults; ActivityRecord.java is not part of this model.
- ActivityTasks.HexDigitValue: `Character.digit` also accepts non-ASCII Unicode digits; only ASCII hex digits are modelled.
- ActivityRecord.java, ActivityManager.java, Process.java and HDMI's Constants.java are not part of this model. The constants used are `SYSTEM_UID` 1000, `USER_OWNER` 0, `ROUTING_PATH_TOP_MASK` 0xF000, `INVALID_PHYSICAL_ADDRESS` 0xFFFF, `INVALID_PORT_ID` -1, the poll-strategy masks 0x3 and 0x30000, `ADDR_BROADCAST` 15 and `ADDR_UNREGISTERED` 15.
- HdmiControl.HdmiControlService.constructor: the `OPTION_CEC_ENABLE` native option is not recorded. Each per-device action (allocation, standby, transition) is collapsed into one event for all local devices.
- Floating point is not modelled: `setStreamVolume`, and `TILE_ASPECT` and the cell widths in the panel.
- The panel's views are not modelled: measurement specs, `onLayout` coordinates, the detail-view content, the animation itself and the brightness controller's internals. A tile's detail adapter is a parameter of `HandleShowDetail`.
- EnterTransitionCoordinator is not part of this model.
- HdmiControl.HdmiControlService.OnAllocated: each call of `initializeLocalDevices` makes its own `finished` and `devices` containers, which its callbacks capture. The model keeps one pair as fields, reset when a round starts. An answer from an earlier round that arrives after a wake-up started a new one therefore counts toward the new round.
- TvServer.ClientDied, TvServer.ReleaseClientSessions and TvServer.TvInputManagerService.ClientBinderDied: each contract states each kept service entry's clients, sessions, backend and callback. Its `bound` and `reconnecting` flags are those `updateServiceConnectionLocked` leaves after each release. `TvServer.UpdateServiceConnection` states them for one call; the combined contract does not.

## Findings

| source | as written | input that shows it | evidently intended | confidence | as-written member | corrected member |
|---|---|---|---|---|---|---|
| services/core/java/com/android/server/am/TaskRecord.java:369-389 | `addActivityToTop` passes `mActivities.size()` as the index before `addActivityAtIndex` removes the activity | an activity already in the task added to the top: after removal the index is one past the end, and `add(index, r)` throws `IndexOutOfBoundsException` | the index is clamped to the list size after removal, so the activity moves to the top | not executed | ActivityTasks.AddToTopOfPresentActivityThrows | ActivityTasks.TaskRecord.AddActivityAtIndex |
| services/core/java/com/android/server/tv/TvInputManagerService.java:1330-1343 | `SessionState.binderDied` calls `removeSessionStateLocked`, with no check that the session is still registered | a session released by `releaseSession` (death recipient still linked) whose binder then dies: `removeSessionStateLocked` dereferences a missing entry and throws `NullPointerException` | a session that is already gone is ignored | not executed | TvServer.DeathAfterReleaseThrows | TvServer.SessionBinderDied |
| services/core/java/com/android/server/tv/TvInputManagerService.java:418-448 | the backend's `onSessionCreated` callback uses the session state it captured, even after the session was released | a session released before its backend answers: a non-null answer adds the token to the client's list although no session exists; a null answer throws `NullPointerException` | an answer for a session that no longer exists is ignored | not executed | TvServer.LateSessionCreatedCorruptsClientTable | TvServer.SessionCreated |
| media/java/android/media/tv/TvInputManager.java:892 | the timeout message is built with `obtainMessage(MSG_TIMEOUT_INPUT_EVENT, p)`, leaving `arg1` 0, while the handler finishes `msg.arg1` | any dispatched event whose sequence number is not 0 and whose handler never answers: the timeout finishes event 0 and the event stays pending | the timeout carries the event's sequence number in `arg1`, as the flush message does | not executed | TvClient.TimeoutAsWrittenMissesEvent | TvClient.TimeoutForCompletesEvent |
| services/core/java/com/android/server/tv/TvInputManagerService.java:1406-1414 | `onServiceDisconnected` iterates `serviceState.mSessionTokens` while `removeSessionStateLocked` removes from that same list | tokens [1, 2] both pending: 2 never gets its null token, because after answering 1 the loop stops (OpenJDK iterator) or throws `ConcurrentModificationException` (libcore iterator); tokens [1, 2, 3] with 1 pending: the next step throws `ConcurrentModificationException` on either iterator | every pending session is answered, which iterating over a copy of the list achieves | not executed | TvServer.DisconnectSkipsSecondPending | TvServer.ServiceDisconnectedLocked |
| services/core/java/com/android/server/tv/TvInputManagerService.java:436-442 | `onSessionCreated` adds the token to the client's `mSessionTokens` even when the session was already created and listed | a connected service with a created session reconnects; every session in its list is requested again (lines 1376-1378), and the backend's second answer lists the token twice; releasing the session removes one copy, the leftover token names no session, and releasing it again (as the client's death does) throws `IllegalArgumentException` | a repeated answer replaces the backend session and resends the token, which the client lists once | not executed | TvServer.RecreatedSessionListedTwice | TvServer.SessionCreated |
