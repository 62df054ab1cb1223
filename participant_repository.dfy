/** The session_participants table (repositories/sessionParticipant.repository.ts),
    keyed by its composite primary key (session_id, user_id). */
module ParticipantRepository {
  import opened Domain

  datatype ParticipantRow = ParticipantRow(sessionId: SessionId, userId: UserId, role: Role, joinedAt: Time, leftAt: Option<Time>)

  type Key = (SessionId, UserId)

  type Participants = map<Key, ParticipantRow>

  /** Each row sits under its own key, so there is at most one row per (session, user). */
  ghost predicate WellFormed(rows: Participants)
  {
    forall k | k in rows :: rows[k].sessionId == k.0 && rows[k].userId == k.1
  }

  /** Every participant row belongs to one of the first `sessionCount` sessions (the foreign key to sessions). */
  ghost predicate OfKnownSessions(rows: Participants, sessionCount: nat)
  {
    forall k | k in rows :: k.0 < sessionCount
  }

  /** The table after `addParticipant(s, u, role)`: `INSERT ... ON CONFLICT DO NOTHING`. */
  function Added(rows: Participants, s: SessionId, u: UserId, role: Role, now: Time): (r: Participants)
    requires WellFormed(rows)
    ensures WellFormed(r) && (s, u) in r
    // a new pair is inserted with the given role, nothing is left
    ensures (s, u) !in rows ==> r == rows[(s, u) := ParticipantRow(s, u, role, now, None)]
    // an existing row, its role included, is kept as it was
    ensures (s, u) in rows ==> r == rows
  {
    if (s, u) in rows then rows else rows[(s, u) := ParticipantRow(s, u, role, now, None)]
  }

  /** The table after `markLeft(s, u)`: `left_at` is set only when it is still null. */
  function Left(rows: Participants, s: SessionId, u: UserId, now: Time): (r: Participants)
    requires WellFormed(rows)
    ensures WellFormed(r) && r.Keys == rows.Keys
    ensures (s, u) in rows ==> r[(s, u)].leftAt.Some?
    ensures (s, u) in rows && rows[(s, u)].leftAt.None? ==> r[(s, u)] == rows[(s, u)].(leftAt := Some(now))
    // left_at is never cleared or moved, and no other row changes
    ensures forall k | k in rows && (k != (s, u) || rows[k].leftAt.Some?) :: r[k] == rows[k]
  {
    if (s, u) in rows && rows[(s, u)].leftAt.None? then rows[(s, u) := rows[(s, u)].(leftAt := Some(now))] else rows
  }

  /** `markLeft` is idempotent. */
  lemma LeftIsIdempotent(rows: Participants, s: SessionId, u: UserId, t1: Time, t2: Time)
    requires WellFormed(rows)
    ensures Left(Left(rows, s, u, t1), s, u, t2) == Left(rows, s, u, t1)
  {
  }

  /** `findActiveBySession(s)`: the rows of session `s` whose left_at is null. */
  function ActiveBySession(rows: Participants, s: SessionId): (r: set<ParticipantRow>)
    requires WellFormed(rows)
    ensures forall p | p in r :: p.sessionId == s && p.leftAt.None? && (s, p.userId) in rows && rows[(s, p.userId)] == p
    ensures forall k | k in rows && k.0 == s && rows[k].leftAt.None? :: rows[k] in r
  {
    set k | k in rows && k.0 == s && rows[k].leftAt.None? :: rows[k]
  }

  /** After `markLeft(s, u)` the user is no longer active in `s`; every other active participant stays. */
  lemma LeftLeavesActive(rows: Participants, s: SessionId, u: UserId, now: Time)
    requires WellFormed(rows)
    ensures ActiveBySession(Left(rows, s, u, now), s) ==
            set p | p in ActiveBySession(rows, s) && p.userId != u
  {
  }

  class ParticipantTable {
    var rows: Participants

    ghost predicate Valid()
      reads this
    {
      WellFormed(rows)
    }

    constructor ()
      ensures Valid() && rows == map[]
    {
      rows := map[];
    }

    /** `addParticipant`: insert, or fetch the row that is already there. */
    method AddParticipant(s: SessionId, u: UserId, role: Role, now: Time) returns (p: ParticipantRow)
      requires Valid()
      modifies this
      ensures Valid()
      ensures rows == Added(old(rows), s, u, role, now)
      ensures p == rows[(s, u)]
    {
      if (s, u) !in rows {
        rows := rows[(s, u) := ParticipantRow(s, u, role, now, None)];
      }
      p := rows[(s, u)];
    }

    /** `markLeft`: `UPDATE ... WHERE session_id = $1 AND user_id = $2 AND left_at IS NULL`. */
    method MarkLeft(s: SessionId, u: UserId, now: Time)
      requires Valid()
      modifies this
      ensures Valid()
      ensures rows == Left(old(rows), s, u, now)
    {
      if (s, u) in rows && rows[(s, u)].leftAt.None? {
        rows := rows[(s, u) := rows[(s, u)].(leftAt := Some(now))];
      }
    }
  }
}
