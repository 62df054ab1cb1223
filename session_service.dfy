/** The session lifecycle of services/session.service.ts: starting a session
    replaces the user's active one, stopping one is reserved to its owner, and
    both clear the user's presence and live location. */
module SessionService {
  import opened Domain
  import opened SessionRepository
  import ParticipantRepository
  import PresenceService
  import LiveLocation
  import SocketIo

  /** The sessions table after `startSession(u, kind)`: `u`'s active session
      found by `findActiveByUser`, if any, ended as replaced, then the new row. */
  function Started(rows: seq<SessionRow>, u: UserId, kind: SessionType, now: Time): (r: seq<SessionRow>)
    requires WellFormed(rows)
    ensures WellFormed(r) && |r| == |rows| + 1 && EndsAreFinal(rows, r)
    ensures r[|rows|] == SessionRow(|rows|, u, kind, now, None, None)
    // the old rows are those after ending `u`'s active session, if any, as replaced
    ensures r[..|rows|] == if FindActiveByUser(rows, u).Some? then Ended(rows, FindActiveByUser(rows, u).value.id, Replaced, now) else rows
    ensures FindActiveByUser(rows, u).Some? ==>
              var a := FindActiveByUser(rows, u).value;
              r[a.id].endedReason == Some(Replaced) && r[a.id].endedAt == Some(now) &&
              forall i | 0 <= i < |rows| && i != a.id :: r[i] == rows[i]
    ensures FindActiveByUser(rows, u).None? ==> r[..|rows|] == rows
  {
    var prior := FindActiveByUser(rows, u);
    var base := if prior.Some? then Ended(rows, prior.value.id, Replaced, now) else rows;
    EndedIsMonotonic(rows, if prior.Some? then prior.value.id else 0, Replaced, now);
    assert prior.Some? ==> rows[prior.value.id] == prior.value;
    assert (base + [SessionRow(|rows|, u, kind, now, None, None)])[..|rows|] == base;
    base + [SessionRow(|rows|, u, kind, now, None, None)]
  }

  /** Ending a session never gives anyone a second open session. */
  lemma EndedKeepsAtMostOneActive(rows: seq<SessionRow>, id: SessionId, reason: SessionEndReason, now: Time, v: UserId)
    requires WellFormed(rows) && AtMostOneActive(rows, v)
    ensures AtMostOneActive(Ended(rows, id, reason, now), v)
    ensures ActiveOwned(Ended(rows, id, reason, now), v) <= ActiveOwned(rows, v)
  {
  }

  /** One open session per user is preserved by `startSession`: afterwards
      `u`'s only open session is the new one, and nobody else gains one. */
  lemma StartedLeavesOneActive(rows: seq<SessionRow>, u: UserId, kind: SessionType, now: Time, v: UserId)
    requires WellFormed(rows) && AtMostOneActive(rows, u) && AtMostOneActive(rows, v)
    ensures ActiveOwned(Started(rows, u, kind, now), u) == {|rows|}
    ensures AtMostOneActive(Started(rows, u, kind, now), v)
  {
  }

  /** `startSession(u, kind)`. Every participant row points at a known
      session, so the new session has no participant yet. */
  method StartSession(sessions: SessionTable, participants: ParticipantRepository.ParticipantTable,
                      presence: PresenceService.PresenceStore, locations: LiveLocation.LocationStore,
                      io: SocketIo.SocketServer, u: UserId, kind: SessionType, now: Time) returns (s: SessionRow)
    requires sessions.Valid() && participants.Valid()
    requires ParticipantRepository.OfKnownSessions(participants.rows, |sessions.rows|)
    modifies sessions, participants, presence, locations, io
    ensures sessions.Valid() && participants.Valid()
    ensures ParticipantRepository.OfKnownSessions(participants.rows, |sessions.rows|)
    // a new open session of the requested type, with `u` as its owner participant
    ensures s == SessionRow(|old(sessions.rows)|, u, kind, now, None, None) && Active(s)
    ensures sessions.rows == Started(old(sessions.rows), u, kind, now)
    ensures (s.id, u) in participants.rows && participants.rows[(s.id, u)] == ParticipantRepository.ParticipantRow(s.id, u, Owner, now, None)
    ensures EndsAreFinal(old(sessions.rows), sessions.rows)
    ensures AtMostOneActive(old(sessions.rows), u) ==> ActiveOwned(sessions.rows, u) == {s.id}
    ensures io.sockets == old(io.sockets)
    // without an active session nothing else changes
    ensures FindActiveByUser(old(sessions.rows), u).None? ==>
              (participants.rows == old(participants.rows)[(s.id, u) := ParticipantRepository.ParticipantRow(s.id, u, Owner, now, None)]
               && presence.keys == old(presence.keys) && locations.live == old(locations.live) && io.emitted == old(io.emitted))
    // the replaced session: ended as replaced, `u` has left it, presence and location are cleared
    ensures FindActiveByUser(old(sessions.rows), u).Some? ==>
              var a := FindActiveByUser(old(sessions.rows), u).value;
              sessions.rows[a.id].endedReason == Some(Replaced) &&
              participants.rows == ParticipantRepository.Added(ParticipantRepository.Left(old(participants.rows), a.id, u, now), s.id, u, Owner, now) &&
              presence.keys == PresenceService.ClearStep(old(presence.keys), u, now).0 &&
              io.emitted == old(io.emitted) + PresenceService.Broadcast(PresenceService.ClearStep(old(presence.keys), u, now).1) &&
              locations.live == old(locations.live) - {u}
  {
    var active := FindActiveByUser(sessions.rows, u);
    if active.Some? {
      assert sessions.rows[active.value.id] == active.value;
      sessions.EndSession(active.value.id, Replaced, now);
      participants.MarkLeft(active.value.id, u, now);
      PresenceService.ClearPresence(presence, io, u, now);
      locations.Clear(u);
    }
    s := sessions.CreateSession(u, kind, now);
    assert (s.id, u) !in participants.rows;
    var _ := participants.AddParticipant(s.id, u, Owner, now);
    if AtMostOneActive(old(sessions.rows), u) {
      StartedLeavesOneActive(old(sessions.rows), u, kind, now, u);
    }
  }

  /** The message `stopSession` gives its UnauthorizedAction error. */
  const NOT_OWNER_MESSAGE := "Only the session owner can stop the session"

  /** `stopSession(u, sid, reason)`. */
  method StopSession(sessions: SessionTable, participants: ParticipantRepository.ParticipantTable,
                     presence: PresenceService.PresenceStore, locations: LiveLocation.LocationStore,
                     io: SocketIo.SocketServer, u: UserId, sid: SessionId, reason: SessionEndReason, now: Time)
    returns (r: Result<(), Failure>)
    requires sessions.Valid() && participants.Valid()
    modifies sessions, participants, presence, locations, io
    ensures sessions.Valid() && participants.Valid()
    // the failures, in the order they are checked
    ensures sid >= |old(sessions.rows)| ==> r == Err(Raise(SessionNotFound))
    ensures sid < |old(sessions.rows)| && old(sessions.rows)[sid].owner != u ==>
              r == Err(DomainError(UnauthorizedAction, NOT_OWNER_MESSAGE))
    ensures sid < |old(sessions.rows)| && old(sessions.rows)[sid].owner == u && !Active(old(sessions.rows)[sid]) ==>
              r == Err(Raise(SessionAlreadyEnded))
    ensures r.Ok? <==> IsActive(old(sessions.rows), sid) && old(sessions.rows)[sid].owner == u
    ensures r.Err? ==> (sessions.rows == old(sessions.rows) && participants.rows == old(participants.rows)
                     && presence.keys == old(presence.keys) && locations.live == old(locations.live)
                     && io.emitted == old(io.emitted))
    ensures io.sockets == old(io.sockets)
    // a stop ends the session with the given reason and only the owner leaves it
    ensures r.Ok? ==> (sessions.rows == old(sessions.rows)[sid := old(sessions.rows)[sid].(endedAt := Some(now), endedReason := Some(reason))]
                    && participants.rows == ParticipantRepository.Left(old(participants.rows), sid, u, now)
                    && (forall k | k in old(participants.rows) && k != (sid, u) :: participants.rows[k] == old(participants.rows)[k])
                    && presence.keys == PresenceService.ClearStep(old(presence.keys), u, now).0
                    && io.emitted == old(io.emitted) + PresenceService.Broadcast(PresenceService.ClearStep(old(presence.keys), u, now).1)
                    && locations.live == old(locations.live) - {u})
    // nobody gains an open session
    ensures forall v :: AtMostOneActive(old(sessions.rows), v) ==> AtMostOneActive(sessions.rows, v)
  {
    var session := FindById(sessions.rows, sid);
    if session.None? {
      return Err(Raise(SessionNotFound));
    }
    if session.value.owner != u {
      return Err(DomainError(UnauthorizedAction, NOT_OWNER_MESSAGE));
    }
    if session.value.endedAt.Some? {
      return Err(Raise(SessionAlreadyEnded));
    }
    sessions.EndSession(sid, reason, now);
    participants.MarkLeft(sid, u, now);
    PresenceService.ClearPresence(presence, io, u, now);
    locations.Clear(u);
    forall v | AtMostOneActive(old(sessions.rows), v) ensures AtMostOneActive(sessions.rows, v) {
      EndedKeepsAtMostOneActive(old(sessions.rows), sid, reason, now, v);
    }
    return Ok(());
  }
}
