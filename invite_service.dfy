/** The invite commands of services/invite.service.ts: ordered guard checks,
    each raising its own error, then a guarded update of the invites table.
    Accepting also adds the invitee as a participant in one transaction and,
    after the commit, moves the invitee's live sockets into the session room
    and announces the join there. */
module InviteService {
  import opened Domain
  import opened InviteRepository
  import SessionRepository
  import ParticipantRepository
  import Connections
  import SocketIo

  /** `sendInvite(from, to, sessionId)`. `settings` is the user_settings
      table: each user's invite permission. */
  method SendInvite(invites: InviteTable, sessions: SessionRepository.SessionTable,
                    settings: map<UserId, InvitePermissions>,
                    from: UserId, to: UserId, sid: SessionId, now: Time) returns (r: Result<InviteRow, Failure>)
    requires invites.Valid() && sessions.Valid()
    modifies invites
    ensures invites.Valid()
    // the failures, in the order they are checked; none of them creates an invite
    ensures r.Err? ==> invites.rows == old(invites.rows)
    ensures sid >= |sessions.rows| ==> r == Err(Raise(SessionNotFound))
    ensures sid < |sessions.rows| && sessions.rows[sid].owner != from ==> r == Err(Raise(OnlyOwnerCanInvite))
    ensures sid < |sessions.rows| && sessions.rows[sid].owner == from && to !in settings ==>
              r == Err(Raise(UserSettingsNotFound))
    ensures sid < |sessions.rows| && sessions.rows[sid].owner == from && to in settings && settings[to] == NoOne ==>
              r == Err(Raise(UserDisabledInvites))
    // friends-only invites are not implemented: a plain Error, not a domain error
    ensures sid < |sessions.rows| && sessions.rows[sid].owner == from && to in settings && settings[to] == Friends ==>
              r == Err(UnexpectedError("Friend-only invites not yet implemented"))
    // otherwise a fresh pending invite of the session's type, whether or not the session has ended
    ensures r.Ok? <==> sid < |sessions.rows| && sessions.rows[sid].owner == from && to in settings && settings[to] == Anyone
    ensures r.Ok? ==> (r.value == InviteRow(|old(invites.rows)|, from, to, sid, sessions.rows[sid].kind, now, None, None, None)
                    && invites.rows == old(invites.rows) + [r.value])
  {
    var session := SessionRepository.FindById(sessions.rows, sid);
    if session.None? {
      return Err(Raise(SessionNotFound));
    }
    if session.value.owner != from {
      return Err(Raise(OnlyOwnerCanInvite));
    }
    if to !in settings {
      return Err(Raise(UserSettingsNotFound));
    }
    if settings[to] == NoOne {
      return Err(Raise(UserDisabledInvites));
    }
    if settings[to] == Friends {
      return Err(UnexpectedError("Friend-only invites not yet implemented"));
    }
    var inv := invites.Create(from, to, sid, session.value.kind, now);
    return Ok(inv);
  }

  /** True iff every advisory check of `acceptInvite` passes: the invite
      exists, is addressed to `u`, is pending, and its session is active. */
  ghost predicate AcceptAllowed(invites: seq<InviteRow>, sessions: seq<SessionRepository.SessionRow>, id: InviteId, u: UserId)
  {
    id < |invites| && invites[id].to == u && Pending(invites[id]) &&
    SessionRepository.IsActive(sessions, invites[id].sessionId)
  }

  /** The checks `acceptInvite` runs before its transaction, in order. They read and change nothing. */
  method CheckAccept(invites: InviteTable, sessions: SessionRepository.SessionTable, id: InviteId, u: UserId)
    returns (r: Result<InviteRow, Failure>)
    requires invites.Valid() && sessions.Valid()
    ensures id >= |invites.rows| ==> r == Err(Raise(InviteNotFound))
    ensures id < |invites.rows| && invites.rows[id].to != u ==> r == Err(Raise(NotYourInvite))
    ensures id < |invites.rows| && invites.rows[id].to == u && !Pending(invites.rows[id]) ==>
              r == Err(Raise(InviteNotPending))
    ensures id < |invites.rows| && invites.rows[id].to == u && Pending(invites.rows[id]) &&
            !SessionRepository.IsActive(sessions.rows, invites.rows[id].sessionId) ==>
              r == Err(Raise(SessionNoLongerActive))
    ensures r.Ok? <==> AcceptAllowed(invites.rows, sessions.rows, id, u)
    // when the checks pass, the guarded update that follows them succeeds
    ensures r.Ok? ==> r.value == invites.rows[id] && Mark(invites.rows, id, Accept, 0).1
  {
    var found := InviteRepository.FindById(invites.rows, id);
    if found.None? {
      return Err(Raise(InviteNotFound));
    }
    var inv := found.value;
    if inv.to != u {
      return Err(Raise(NotYourInvite));
    }
    if !Pending(inv) {
      return Err(Raise(InviteNotPending));
    }
    var session := SessionRepository.FindById(sessions.rows, inv.sessionId);
    if session.None? || !SessionRepository.Active(session.value) {
      return Err(Raise(SessionNoLongerActive));
    }
    return Ok(inv);
  }

  /** The transaction of `acceptInvite`: mark the invite accepted and add the
      invitee with role `invited`, or, when the mark finds the invite no longer
      pending, roll back and change neither table. */
  method CommitAccept(invites: InviteTable, participants: ParticipantRepository.ParticipantTable,
                      id: InviteId, sid: SessionId, u: UserId, now: Time) returns (r: Result<(), Failure>)
    requires invites.Valid() && participants.Valid()
    modifies invites, participants
    ensures invites.Valid() && participants.Valid()
    ensures r.Ok? <==> id < |old(invites.rows)| && Pending(old(invites.rows)[id])
    ensures r.Ok? ==> (invites.rows == Mark(old(invites.rows), id, Accept, now).0
                    && participants.rows == ParticipantRepository.Added(old(participants.rows), sid, u, Invited, now))
    ensures r.Err? ==> (r == Err(Raise(InviteNotPending))
                     && invites.rows == old(invites.rows) && participants.rows == old(participants.rows))
  {
    var accepted := invites.MarkAccepted(id, now);
    if !accepted {
      return Err(Raise(InviteNotPending));
    }
    var _ := participants.AddParticipant(sid, u, Invited, now);
    return Ok(());
  }

  /** What the accept does after its commit: every live socket of `u` joins
      room `session:<sid>` and is tagged with `sid`, then one `user_joined`
      with role `invited` goes to that room. Other sockets are untouched. */
  method AnnounceJoin(manager: Connections.ConnectionManager, io: SocketIo.SocketServer, sid: SessionId, u: UserId, now: Time)
    modifies io
    ensures io.sockets.Keys == old(io.sockets).Keys
    ensures forall s | s in io.sockets ::
              io.sockets[s] == if s in manager.Sockets(u) then SocketIo.Joined(old(io.sockets)[s], sid) else old(io.sockets)[s]
    ensures io.emitted == old(io.emitted) +
              [SocketIo.Emission(SocketIo.ToRoom(SocketIo.SessionRoom(sid)), SocketIo.UserJoined(sid, u, Invited, now))]
  {
    var ids := manager.GetSockets(u);
    var i := 0;
    while i < |ids|
      invariant 0 <= i <= |ids|
      invariant io.sockets.Keys == old(io.sockets).Keys
      invariant forall s | s in io.sockets ::
                  io.sockets[s] == if s in ids[..i] then SocketIo.Joined(old(io.sockets)[s], sid) else old(io.sockets)[s]
      invariant io.emitted == old(io.emitted)
    {
      if ids[i] in io.sockets {
        io.JoinAndTag(ids[i], sid);
      }
      i := i + 1;
    }
    assert ids[..i] == ids;
    io.Emit(SocketIo.ToRoom(SocketIo.SessionRoom(sid)), SocketIo.UserJoined(sid, u, Invited, now));
  }

  /** `acceptInvite(id, u)`. */
  method AcceptInvite(invites: InviteTable, sessions: SessionRepository.SessionTable,
                      participants: ParticipantRepository.ParticipantTable,
                      manager: Connections.ConnectionManager, io: SocketIo.SocketServer,
                      id: InviteId, u: UserId, now: Time) returns (r: Result<(), Failure>)
    requires invites.Valid() && sessions.Valid() && participants.Valid()
    modifies invites, participants, io
    ensures invites.Valid() && participants.Valid()
    // the checks, in order; a failed accept changes no table, no socket and emits nothing
    ensures id >= |old(invites.rows)| ==> r == Err(Raise(InviteNotFound))
    ensures id < |old(invites.rows)| && old(invites.rows)[id].to != u ==> r == Err(Raise(NotYourInvite))
    ensures id < |old(invites.rows)| && old(invites.rows)[id].to == u && !Pending(old(invites.rows)[id]) ==>
              r == Err(Raise(InviteNotPending))
    ensures id < |old(invites.rows)| && old(invites.rows)[id].to == u && Pending(old(invites.rows)[id]) &&
            !SessionRepository.IsActive(sessions.rows, old(invites.rows)[id].sessionId) ==>
              r == Err(Raise(SessionNoLongerActive))
    ensures r.Ok? <==> AcceptAllowed(old(invites.rows), sessions.rows, id, u)
    ensures r.Err? ==> (invites.rows == old(invites.rows) && participants.rows == old(participants.rows)
                     && io.sockets == old(io.sockets) && io.emitted == old(io.emitted))
    // the invitee joins an existing session, so participant rows keep pointing at known sessions
    ensures ParticipantRepository.OfKnownSessions(old(participants.rows), |sessions.rows|) ==>
              ParticipantRepository.OfKnownSessions(participants.rows, |sessions.rows|)
    // a successful accept: the invite is accepted, the invitee takes part, its sockets are in the room
    ensures r.Ok? ==>
              var sid := old(invites.rows)[id].sessionId;
              invites.rows == old(invites.rows)[id := old(invites.rows)[id].(acceptedAt := Some(now))] &&
              participants.rows == ParticipantRepository.Added(old(participants.rows), sid, u, Invited, now) &&
              (sid, u) in participants.rows &&
              SessionRepository.IsActive(sessions.rows, sid) &&
              io.sockets.Keys == old(io.sockets).Keys &&
              (forall s | s in io.sockets ::
                 io.sockets[s] == if s in manager.Sockets(u) then SocketIo.Joined(old(io.sockets)[s], sid) else old(io.sockets)[s]) &&
              io.emitted == old(io.emitted) +
                [SocketIo.Emission(SocketIo.ToRoom(SocketIo.SessionRoom(sid)), SocketIo.UserJoined(sid, u, Invited, now))]
  {
    var checked := CheckAccept(invites, sessions, id, u);
    if checked.Err? {
      return Err(checked.error);
    }
    var sid := checked.value.sessionId;
    r := CommitAccept(invites, participants, id, sid, u, now);
    if r.Ok? {
      AnnounceJoin(manager, io, sid, u, now);
    }
  }

  /** Two accepts of one invite racing: both pass their advisory checks before
      either transaction runs. The guarded update lets exactly one through, and
      the invitee is added once. */
  method RacingAccepts(invites: InviteTable, sessions: SessionRepository.SessionTable,
                       participants: ParticipantRepository.ParticipantTable,
                       id: InviteId, u: UserId, now1: Time, now2: Time) returns (r1: Result<(), Failure>, r2: Result<(), Failure>)
    requires invites.Valid() && sessions.Valid() && participants.Valid()
    requires AcceptAllowed(invites.rows, sessions.rows, id, u)
    modifies invites, participants
    ensures invites.Valid() && participants.Valid()
    ensures r1.Ok? && r2 == Err(Raise(InviteNotPending))
    ensures invites.rows == old(invites.rows)[id := old(invites.rows)[id].(acceptedAt := Some(now1))]
    ensures participants.rows ==
              ParticipantRepository.Added(old(participants.rows), old(invites.rows)[id].sessionId, u, Invited, now1)
  {
    var c1 := CheckAccept(invites, sessions, id, u);
    var c2 := CheckAccept(invites, sessions, id, u);
    r1 := CommitAccept(invites, participants, id, c1.value.sessionId, u, now1);
    r2 := CommitAccept(invites, participants, id, c2.value.sessionId, u, now2);
  }

  /** `declineInvite(id, u)`: no participant and no event, whatever the outcome. */
  method DeclineInvite(invites: InviteTable, id: InviteId, u: UserId, now: Time) returns (r: Result<(), Failure>)
    requires invites.Valid()
    modifies invites
    ensures invites.Valid()
    ensures id >= |old(invites.rows)| ==> r == Err(Raise(InviteNotFound))
    ensures id < |old(invites.rows)| && old(invites.rows)[id].to != u ==> r == Err(Raise(NotYourInvite))
    ensures id < |old(invites.rows)| && old(invites.rows)[id].to == u && !Pending(old(invites.rows)[id]) ==>
              r == Err(Raise(InviteNotPending))
    ensures r.Ok? <==> id < |old(invites.rows)| && old(invites.rows)[id].to == u && Pending(old(invites.rows)[id])
    ensures r.Ok? ==> invites.rows == old(invites.rows)[id := old(invites.rows)[id].(declinedAt := Some(now))]
    ensures r.Err? ==> invites.rows == old(invites.rows)
  {
    var found := InviteRepository.FindById(invites.rows, id);
    if found.None? {
      return Err(Raise(InviteNotFound));
    }
    if found.value.to != u {
      return Err(Raise(NotYourInvite));
    }
    if !Pending(found.value) {
      return Err(Raise(InviteNotPending));
    }
    var declined := invites.MarkDeclined(id, now);
    r := if declined then Ok(()) else Err(Raise(InviteNotPending));
  }

  /** `revokeInvite(id, caller)`: only the owner of the invite's session may
      revoke, and that is checked before whether the invite is still pending. */
  method RevokeInvite(invites: InviteTable, sessions: SessionRepository.SessionTable,
                      id: InviteId, caller: UserId, now: Time) returns (r: Result<(), Failure>)
    requires invites.Valid() && sessions.Valid()
    modifies invites
    ensures invites.Valid()
    ensures id >= |old(invites.rows)| ==> r == Err(Raise(InviteNotFound))
    ensures id < |old(invites.rows)| &&
            (old(invites.rows)[id].sessionId >= |sessions.rows| || sessions.rows[old(invites.rows)[id].sessionId].owner != caller) ==>
              r == Err(Raise(OnlyOwnerCanRevoke))
    ensures id < |old(invites.rows)| && old(invites.rows)[id].sessionId < |sessions.rows| &&
            sessions.rows[old(invites.rows)[id].sessionId].owner == caller && !Pending(old(invites.rows)[id]) ==>
              r == Err(Raise(InviteNotPending))
    ensures r.Ok? <==> id < |old(invites.rows)| && old(invites.rows)[id].sessionId < |sessions.rows| &&
                       sessions.rows[old(invites.rows)[id].sessionId].owner == caller && Pending(old(invites.rows)[id])
    ensures r.Ok? ==> invites.rows == old(invites.rows)[id := old(invites.rows)[id].(revokedAt := Some(now))]
    ensures r.Err? ==> invites.rows == old(invites.rows)
  {
    var found := InviteRepository.FindById(invites.rows, id);
    if found.None? {
      return Err(Raise(InviteNotFound));
    }
    var session := SessionRepository.FindById(sessions.rows, found.value.sessionId);
    if session.None? || session.value.owner != caller {
      return Err(Raise(OnlyOwnerCanRevoke));
    }
    if !Pending(found.value) {
      return Err(Raise(InviteNotPending));
    }
    var revoked := invites.MarkRevoked(id, now);
    r := if revoked then Ok(()) else Err(Raise(InviteNotPending));
  }
}
