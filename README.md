# FitBuddy backend core, modelled in Dafny

This project models the business core of the FitBuddy backend. That core is a
set of guarded state machines over database tables, plus some in-memory
realtime bookkeeping:

- **Invites.** An invite to a running session is pending until exactly one of
  accept, decline or revoke succeeds. An accept also adds the invitee as a
  participant, in the same transaction. After the commit, the invitee's live
  sockets join the session room and a `user_joined` event goes to that room.
- **Friend requests.** A request is pending until it is accepted or declined.
  An accept creates the friendship in both directions, in the same
  transaction.
- **Sessions.** A user starts a session, and any session the user still has
  open is ended with reason `replaced`. Only the owner may stop a session.
  Participants join and leave, and an end or a leave once written is never
  overwritten.
- **Connection registry.** A map from each user to the ids of their live
  sockets. It never holds an empty entry.
- **Location throttle.** A location update is written to the live-location
  store. Per user, one pending sample is kept (last write wins) with at most
  one timer. When the timer fires, the sample goes to the session room, but
  only if the user still has a socket tagged with that session.
- **Presence.** Edge-triggered events: `user_online` is sent when a heartbeat
  creates the presence key, `user_offline` when a clear deletes it.
- **Error middleware.** A total map from a thrown error to an HTTP status and
  a body.

Each repository is modelled the same way. A pure function on the table value
states what one query or update does (`Mark`, `Ended`, `Added`, `Left`,
`Befriended`, ...), and lemmas prove the promised properties of that function.
A class holds the table as a field, and each of its methods is proved to
change the field exactly as that function says.

Tables with a generated id are `seq`s whose row ids are their positions. Ids
therefore also record creation order, and "newest first" means descending id.
The participants table is a `map` keyed by its composite key, and the friends
table is a set of directed pairs.

Services are module-level methods that take the tables and stores they use.
Each one is proved to raise its errors in the source's order, to change
nothing when it fails, and to make exactly its documented changes when it
succeeds.

Whatever socket.io would deliver is appended to a ghost log, `emitted`.

The modules are `Domain`, `ErrorMiddleware`, `Connections`, `SocketIo`,
`LiveLocation`, `PresenceService`, `LocationHandler`, `SessionRepository`,
`ParticipantRepository`, `InviteRepository`, `InviteService`,
`FriendRepository`, `FriendService` and `SessionService`. Each sits in its own
file.

### Parameters and conventions

- **Time.** Clock readings (`now()`, `new Date()`) are a `now: Time` parameter
  of each operation.
- **Timers and TTLs.** The throttle timer firing is the explicit step
  `LocationThrottle.Fire`. The 30-second presence TTL and the 10-second
  location TTL are the explicit steps `PresenceStore.Expire` and
  `LocationStore.Expire`.
- **User settings.** The user_settings table is a `map` from user to invite
  permission, passed to `SendInvite`.
- **Event names.** `realtime/events.ts` defines only `connected`,
  `disconnected`, `user_online` and `user_offline`. The services also emit
  `RealtimeEvents.USER_JOINED` and `RealtimeEvents.LOCATION_UPDATE`, which
  that file does not define. The model gives those two events their own
  constructors, `UserJoined` and `LocationUpdate`; the tests listen for
  `user_joined`.

## Model

| member | source | states |
|---|---|---|
| ErrorMiddleware.ErrorHandler | middleware/error.middleware.ts:6-43 | Every domain error gets a 4xx status and its own message as the body. Any other error gets 500 with the fixed body "Internal Server Error". The status is 404 iff the code is SESSION_NOT_FOUND or INVITE_NOT_FOUND, 409 iff SESSION_ALREADY_ENDED, and 403 iff one of the five forbidden codes. Every other domain code, the friend-request errors included, gets 400. |
| Connections.Added | realtime/connection.manager.ts:7-12 | After `add(u, s)`, `u`'s sockets are the old ones plus `s`. Every other user's sockets are unchanged, and no entry is left empty. |
| Connections.Removed | realtime/connection.manager.ts:14-19 | After `remove(u, s)`, `u`'s sockets are the old ones minus `s`. The other users are unchanged, removing for an unknown user changes nothing, and an entry that empties is deleted. |
| Connections.AddIsIdempotent | realtime/connection.manager.ts:11 | Adding the same socket twice gives the same map as adding it once. |
| Connections.RemoveUndoesAdd | realtime/connection.manager.ts:7-19 | Removing a socket just added restores every user's set. |
| Connections.ConnectionManager.Add | realtime/connection.manager.ts:7-12 | The registry becomes `Added(old, u, s)` and keeps its no-empty-entry invariant. |
| Connections.ConnectionManager.Remove | realtime/connection.manager.ts:14-19 | The registry becomes `Removed(old, u, s)` and keeps its no-empty-entry invariant. |
| Connections.ConnectionManager.GetSockets | realtime/connection.manager.ts:21-23 | The result lists exactly `u`'s sockets, each once. An unknown user gets an empty list. |
| SocketIo.Joined | services/invite.service.ts:109-110 | A joined socket keeps its user, carries the session tag and is in that session's room, added to the rooms it had. |
| SocketIo.SocketServer.Connect | realtime/socket.server.ts:20-29 | A new socket starts with no session tag and no rooms, and the registry adds it under its user. |
| SocketIo.SocketServer.Disconnect | realtime/socket.server.ts:39-40 | The registry removes the socket from its user's set, and it leaves the live sockets. |
| SocketIo.SocketServer.JoinAndTag | services/invite.service.ts:107-111 | Only the given socket changes, and it becomes `Joined(old, sid)`. Nothing is emitted. |
| SocketIo.SocketServer.Emit | services/invite.service.ts:115-120 | One emission is appended to the log, and no socket changes. |
| LiveLocation.LocationStore.Update | services/location.service.ts:19-30 | The user's key is overwritten with the new payload (last write wins). No other key changes. |
| LiveLocation.LocationStore.Clear | services/location.service.ts:50-52 | The user's key is deleted, and no other key changes. |
| LiveLocation.LocationStore.Expire | services/location.service.ts:27-29 | The TTL elapsing deletes the user's key, and no other key changes. |
| PresenceService.HeartbeatStep | services/presence.service.ts:19-41 | The user's key holds the new session and time. `user_online` is the only event, emitted iff the key did not exist before. |
| PresenceService.ClearStep | services/presence.service.ts:77-88 | The user's key is gone. `user_offline` is emitted iff the key existed, otherwise nothing. |
| PresenceService.SecondHeartbeatIsSilent | services/presence.service.ts:25-40 | A second heartbeat with no clear in between emits nothing. |
| PresenceService.SecondClearIsSilent | services/presence.service.ts:77-87 | A second clear emits nothing, so clearing the same user twice emits at most one `user_offline`. |
| PresenceService.OfflineFollowsOnline | services/presence.service.ts:19-88 | Over any run of heartbeats, clears and TTL expiries, `user_offline` events never outnumber `user_online` events plus one for each key present at the start. |
| PresenceService.ExpiryLosesOffline | services/presence.service.ts:57-75 | For a user offline in any store, a heartbeat, a TTL expiry and another heartbeat emit two `user_online` events and no `user_offline`, and leave the second heartbeat's payload stored. |
| PresenceService.PresenceStore.Expire | services/presence.service.ts:28-30 | The TTL elapsing deletes the user's key without emitting anything. |
| PresenceService.Heartbeat | services/presence.service.ts:19-41 | The store becomes `HeartbeatStep`'s keys, and its events are broadcast to every socket. |
| PresenceService.GetPresence | services/presence.service.ts:47-55 | The result is none iff the user has no key, and otherwise the stored payload. |
| PresenceService.ClearPresence | services/presence.service.ts:77-88 | The store becomes `ClearStep`'s keys, and its events are broadcast to every socket. |
| PresenceService.Broadcast | services/presence.service.ts:34-39 | Each event becomes one `io.emit` to everyone, in order. |
| LocationHandler.Updated | realtime/handlers/location.handler.ts:38-51 | The pending sample is overwritten and a timer marker is present. No new timer is scheduled when one exists. Other users are unchanged, and "a sample pending iff a timer exists" is preserved. |
| LocationHandler.Flushed | realtime/handlers/location.handler.ts:65-82 | The user's sample and marker are both removed and the invariant is kept; every other user's sample and marker are unchanged. |
| LocationHandler.FlushReArms | realtime/handlers/location.handler.ts:48-85 | After a flush, the next accepted update schedules a new timer. |
| LocationHandler.Coalesce | realtime/handlers/location.handler.ts:38-51 | After N ≥ 1 accepted updates, the last one is pending and a timer exists. At most one update scheduled it, and none did if a timer was already running. |
| LocationHandler.AnyTagged | realtime/handlers/location.handler.ts:58-63 | The result is true iff some listed socket is live and tagged with the session. |
| LocationHandler.LocationThrottle.OnLocationUpdate | realtime/handlers/location.handler.ts:26-86 | A socket with no user id or no session tag changes nothing. Otherwise the live location is written and the throttle state becomes `Updated` with this sample and the socket's session. |
| LocationHandler.LocationThrottle.Fire | realtime/handlers/location.handler.ts:51-83 | The state becomes `Flushed`. If the user still has a socket tagged with the sample's session, exactly one `location_update` with the sample's values goes to that session's room; otherwise nothing is emitted. |
| SessionRepository.FindById | repositories/session.repository.ts:48-63 | Unknown ids give none; otherwise the result is the row with that id, unchanged. |
| SessionRepository.FindActiveByUser | repositories/session.repository.ts:26-43 | The result is some open session owned by the user, or none when there is no such session. |
| SessionRepository.Ended | repositories/session.repository.ts:84-95 | Only an open session is ended, with the given time and reason. An ended session and every other row stay as they were. |
| SessionRepository.EndedIsMonotonic | repositories/session.repository.ts:68-95 | Ending never reopens a session or rewrites an ended row; afterwards exactly the old ended rows and the target are ended. |
| SessionRepository.SecondEndIsNoOp | repositories/session.repository.ts:84-95 | Ending twice equals ending once, so the first reason is never replaced. |
| SessionRepository.SessionTable.CreateSession | repositories/session.repository.ts:68-79 | Appends and returns an open session with the given owner and type. |
| SessionRepository.SessionTable.EndSession | repositories/session.repository.ts:84-95 | The table becomes `Ended(old, id, reason, now)`. |
| ParticipantRepository.Added | repositories/sessionParticipant.repository.ts:27-59 | An absent (session, user) pair is inserted with the given role. A present one is left as it was, role included. At most one row per pair. |
| ParticipantRepository.Left | repositories/sessionParticipant.repository.ts:65-76 | Sets left_at only on that pair's row, and only when it is null. Left_at is never cleared, and no other row changes. |
| ParticipantRepository.LeftIsIdempotent | repositories/sessionParticipant.repository.ts:61-76 | Marking left twice equals marking left once. |
| ParticipantRepository.ActiveBySession | repositories/sessionParticipant.repository.ts:82-94 | The result is exactly the session's rows whose left_at is null. |
| ParticipantRepository.LeftLeavesActive | repositories/sessionParticipant.repository.ts:65-94 | After `markLeft(s, u)`, the active participants of `s` are the previous ones without `u`. |
| ParticipantRepository.ParticipantTable.AddParticipant | repositories/sessionParticipant.repository.ts:27-59 | The table becomes `Added(...)`, and the result is the row stored for the pair. |
| ParticipantRepository.ParticipantTable.MarkLeft | repositories/sessionParticipant.repository.ts:65-76 | The table becomes `Left(...)`. |
| InviteRepository.Mark | repositories/invite.repository.ts:42-101 | Succeeds iff the invite exists with all three terminal fields null. On success, only the chosen field of that row is set. On failure, nothing changes. At most one terminal field is ever set. |
| InviteRepository.MarkIsFinal | repositories/invite.repository.ts:42-101 | After a successful mark, every further mark of that invite fails and changes nothing. |
| InviteRepository.AtMostOneMarkSucceeds | repositories/invite.repository.ts:39-59 | In any run of marks of one invite at most one succeeds, and none does unless the invite was pending. |
| InviteRepository.FindById | repositories/invite.repository.ts:30-33 | Unknown ids give none; otherwise the row with that id. |
| InviteRepository.PendingFor | repositories/invite.repository.ts:103-117 | The result is exactly the pending invites addressed to the user, newest first. |
| InviteRepository.InviteTable.Create | repositories/invite.repository.ts:18-28 | Appends and returns a new pending invite with the given sender, recipient, session and session type. |
| InviteRepository.InviteTable.MarkAccepted | repositories/invite.repository.ts:42-59 | The table and the result are `Mark(old, id, Accept, now)`. |
| InviteRepository.InviteTable.MarkDeclined | repositories/invite.repository.ts:65-80 | The table and the result are `Mark(old, id, Decline, now)`. |
| InviteRepository.InviteTable.MarkRevoked | repositories/invite.repository.ts:86-101 | The table and the result are `Mark(old, id, Revoke, now)`. |
| InviteService.SendInvite | services/invite.service.ts:24-52 | Fails, in order, with SessionNotFound, OnlyOwnerCanInvite, UserSettingsNotFound, and UserDisabledInvites (permission none). Permission friends gives a plain error. No failure creates an invite. Otherwise a pending invite of the session's type is created, even if the session has ended. |
| InviteService.CheckAccept | services/invite.service.ts:54-72 | Fails, in order, with InviteNotFound, NotYourInvite, InviteNotPending, then SessionNoLongerActive (session missing or ended). When every check passes, the guarded update that follows succeeds. |
| InviteService.CommitAccept | services/invite.service.ts:74-99 | Both effects or neither: the invite is accepted and the invitee added with role invited, or, when the invite is no longer pending, InviteNotPending and no table changes. |
| InviteService.AnnounceJoin | services/invite.service.ts:101-120 | Every live socket of the user is tagged and in room `session:<id>`. Other sockets are untouched. Then one `user_joined` with role invited goes to that room. |
| InviteService.AcceptInvite | services/invite.service.ts:54-121 | The checks come in the source's order. A failure changes no table and no socket, and emits nothing. A success accepts the invite, adds the invitee as invited to the still-active session, joins the invitee's sockets to the room and emits one `user_joined` there. |
| InviteService.RacingAccepts | services/invite.service.ts:64-88 | Two accepts that both pass the advisory checks before either commits: exactly one succeeds, the other fails InviteNotPending, and the invitee is added once. |
| InviteService.DeclineInvite | services/invite.service.ts:123-143 | Fails, in order, with InviteNotFound, NotYourInvite, InviteNotPending. A success sets only declined_at. Participants and events are never touched. |
| InviteService.RevokeInvite | services/invite.service.ts:145-167 | Fails with InviteNotFound, then OnlyOwnerCanRevoke (session missing or caller not owner, the invitee included) before checking pending. A success sets only revoked_at. |
| FriendRepository.AreFriends | repositories/friend.repository.ts:19-31 | True iff the directed row (a, b) exists; on a symmetric table also iff (b, a) exists. It only reads. |
| FriendRepository.AreFriendsIsSymmetric | repositories/friend.repository.ts:19-49 | On a table written only by `createFriendship`, `areFriends(a, b)` iff `areFriends(b, a)`. |
| FriendRepository.Befriended | repositories/friend.repository.ts:38-50 | Both directed rows exist afterwards. Only those two can be new, existing rows stay, and symmetry is kept. |
| FriendRepository.BefriendedIsIdempotent | repositories/friend.repository.ts:42-47 | Repeating `createFriendship`, with the same or swapped arguments, adds no rows. |
| FriendRepository.BefriendingFriendsIsNoOp | repositories/friend.repository.ts:42-49 | Befriending two users who are already friends leaves the table as it was. |
| FriendRepository.FriendTable.CreateFriendship | repositories/friend.repository.ts:38-50 | The table becomes `Befriended(old, a, b)`, and symmetry is kept. |
| FriendRepository.Mark | repositories/friend.repository.ts:87-123 | Succeeds iff the request exists with accepted_at and declined_at both null. On success, only the chosen field of that row is set. On failure, nothing changes. |
| FriendRepository.MarkIsFinal | repositories/friend.repository.ts:87-123 | After either mark succeeds, both marks fail from then on. |
| FriendRepository.Created | repositories/friend.repository.ts:55-68 | A new pending request is appended, unless one from the same sender to the same recipient is pending. In that case the store refuses it and nothing changes. |
| FriendRepository.FindById | repositories/friend.repository.ts:73-78 | Unknown ids give none; otherwise the row with that id. |
| FriendRepository.PendingFor | repositories/friend.repository.ts:128-141 | The result is exactly the pending requests to the user, newest first. |
| FriendRepository.FriendRequestTable.Create | repositories/friend.repository.ts:58-68 | The table becomes `Created(...)`'s table. The result is the new row, or the store's error for a duplicate pending request. |
| FriendRepository.FriendRequestTable.MarkAccepted | repositories/friend.repository.ts:87-103 | The table and the result are `Mark(old, id, Accept, now)`. |
| FriendRepository.FriendRequestTable.MarkDeclined | repositories/friend.repository.ts:109-123 | The table and the result are `Mark(old, id, Decline, now)`. |
| FriendRepository.FriendRequestTable.Rollback | services/friend.service.ts:84-86 | The table returns to its state at BEGIN. |
| FriendService.SendRequest | services/friend.service.ts:18-41 | Fails CannotFriendSelf before any lookup, then AlreadyFriends if the row (from, to) exists, then with the store's duplicate-pending error. Failures create nothing. Otherwise a new pending request is created. |
| FriendService.CheckRequest | services/friend.service.ts:50-63 | Fails, in order, with FriendRequestNotFound, NotYourFriendRequest, FriendRequestNotPending. When every check passes, the guarded update succeeds. |
| FriendService.CommitAccept | services/friend.service.ts:65-99 | Fails FriendRequestNotPending when the mark fails. Fails AlreadyFriends when the two are already friends, with the request rolled back to pending. Either way no table changes. Otherwise the request is accepted and the friendship exists both ways. |
| FriendService.AcceptRequest | services/friend.service.ts:50-99 | The checks come in the source's order. A failure changes neither table. A success leaves the request accepted and the users friends in both directions. |
| FriendService.DeclineRequest | services/friend.service.ts:104-125 | Fails, in order, with FriendRequestNotFound, NotYourFriendRequest, FriendRequestNotPending. A success sets only declined_at, and the friends table is never touched. |
| SessionService.Started | services/session.service.ts:16-31 | The sessions table after `startSession`: the user's old active session, if any, gets `ended_at = now` and reason replaced while every other old row is unchanged; with no active session the old rows are untouched; a new open row is appended. Nothing ended is rewritten. |
| SessionService.EndedKeepsAtMostOneActive | repositories/session.repository.ts:84-95 | Ending a session never gives any user more open sessions. |
| SessionService.StartedLeavesOneActive | services/session.service.ts:18-31 | If the user had at most one open session, the new session is their only one afterwards, and nobody else gains a second. |
| SessionService.StartSession | services/session.service.ts:16-37 | Returns a new open session of the requested type, with the user as owner participant. Only when an active session existed was it ended as replaced, the user marked left, and presence and location cleared. |
| SessionService.StopSession | services/session.service.ts:42-64 | Fails, in order, with SessionNotFound, UnauthorizedAction ("Only the session owner can stop the session") and SessionAlreadyEnded, changing nothing. A success ends the session with the given reason, marks only the owner's row left, and clears the owner's presence and location. |

## Left out

- HTTP routing, controllers, request validation, fake authentication and server bootstrap are not modelled. The services take the caller's user id as a parameter.
- The connection-time default user id `00000000-0000-0000-0000-000000000000` is not modelled; `Connect` takes the user id directly.
- The driver code for PostgreSQL, Redis and socket.io is not modelled. Tables are `seq`/`map`/`set` fields and Redis keys are `map` fields. What socket.io delivers is a ghost log; socket.io's actual delivery to clients is not modelled.
- Network and database failures are not modelled: every query succeeds.
- Real concurrency, connection pools and transaction isolation are not modelled. Operations run one after another. A transaction is one method whose contract says "both effects or neither", and ROLLBACK restores the snapshot taken at BEGIN.
- The concurrent-accept race is modelled as two advisory checks followed by two commits (`InviteService.RacingAccepts`); other interleavings are not.
- The second ROLLBACK issued by the `catch` blocks after a rollback is not modelled: it has no effect on the tables.
- Friend acceptance reads `areFriends` through the pool rather than the transaction's client. Sequentially that read sees the same table, so the difference is not modelled.
- Timestamps are a `now` parameter, and the 1000 ms throttle window and the TTL durations are kept as constants. Timers and expiry are explicit steps, not the passage of time.
- Latitude, longitude and accuracy are JavaScript numbers. They are carried as `real`s and never computed on.
- Error messages that the source builds with an id (`Session ${id} not found`) are modelled without the id.
- Messages of the invite and friend-request errors are not in the source files of this model: `domain/errors.ts` shows only the session errors. The model uses short texts that agree with what the tests match, and the error middleware passes any message through unchanged.
- The uniqueness constraint on pending friend requests lives in the database schema, which is not part of this model. It is modelled as "at most one pending request per (sender, recipient)", as the comments describe it. A violation surfaces as a plain error, so `ErrorMiddleware.ErrorHandler` gives it 500.
- LocationHandler.LocationThrottle.Fire: the `if (!pending) return;` branch is not modelled. The throttle keeps the invariant "a sample is pending iff a timer is set", so a fired timer always finds its sample.
- Disconnecting does not clear the throttle state, presence or location; the source does not do so either. The `connected` and `disconnected` events go only to the socket itself and are not logged.
- The `listFriends` and `listPendingRequests` services only reformat rows (`Date` mapping) and are not modelled. `FriendService.areFriends` is a pass-through to `FriendRepository.AreFriends` and is not modelled separately.
- Friend-only invite gating, a room join or `session_started` on session start, and auto-resume on connect do not exist in the code and are not modelled. A `friends` permission raises a plain error, as the code does.
- InviteRepository.PendingFor, FriendRepository.PendingFor: order newest first by row id, which is creation order, rather than by the stored `created_at` value; `now` is a free parameter, so the model does not assume timestamps grow with ids.
- `getSocketServer()` throws "Socket.IO not initialized" when called before the server is set up (realtime/socket.server.ts:52-57, used by the invite and presence services). The model always has a socket server, so this error path is not modelled.
- `getLocation` and the Redis key helpers are not modelled: they are plain key reads.
