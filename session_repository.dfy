/** The run_sessions table (repositories/session.repository.ts). */
module SessionRepository {
  import opened Domain

  /** A row of run_sessions; `id` is its position in the table. */
  datatype SessionRow = SessionRow(
    id: SessionId, owner: UserId, kind: SessionType, startedAt: Time,
    endedAt: Option<Time>, endedReason: Option<SessionEndReason>)

  predicate Active(s: SessionRow)
  {
    s.endedAt.None?
  }

  /** Row ids are positions, and a row has an end reason exactly when it has ended. */
  ghost predicate WellFormed(rows: seq<SessionRow>)
  {
    forall i | 0 <= i < |rows| :: rows[i].id == i && (rows[i].endedAt.Some? <==> rows[i].endedReason.Some?)
  }

  /** `findById`: the row with that id, or none for an unknown id. */
  function FindById(rows: seq<SessionRow>, id: SessionId): (r: Option<SessionRow>)
    requires WellFormed(rows)
    ensures r.None? <==> forall i | 0 <= i < |rows| :: rows[i].id != id
    ensures r.Some? ==> r.value in rows && r.value.id == id
  {
    if id < |rows| then Some(rows[id]) else None
  }

  /** Session `id` exists and has not ended. */
  predicate IsActive(rows: seq<SessionRow>, id: SessionId)
  {
    id < |rows| && Active(rows[id])
  }

  /** `findActiveByUser`: some row owned by `u` with ended_at null (`LIMIT 1`
      promises no particular one), or none when there is no such row. */
  function FindActiveByUser(rows: seq<SessionRow>, u: UserId): (r: Option<SessionRow>)
    ensures r.Some? ==> r.value in rows && r.value.owner == u && Active(r.value)
    ensures r.None? ==> forall i | 0 <= i < |rows| :: !(rows[i].owner == u && Active(rows[i]))
  {
    if rows == [] then None
    else if rows[0].owner == u && Active(rows[0]) then Some(rows[0])
    else
      var r := FindActiveByUser(rows[1..], u);
      assert forall i | 1 <= i < |rows| :: rows[i] == rows[1..][i - 1];
      r
  }

  /** The ids of `u`'s open sessions. */
  ghost function ActiveOwned(rows: seq<SessionRow>, u: UserId): set<SessionId>
  {
    set i | 0 <= i < |rows| && rows[i].owner == u && Active(rows[i])
  }

  /** Invariant: a user has at most one session with ended_at null. */
  ghost predicate AtMostOneActive(rows: seq<SessionRow>, u: UserId)
  {
    forall i, j | 0 <= i < |rows| && 0 <= j < |rows| ::
      rows[i].owner == u && Active(rows[i]) && rows[j].owner == u && Active(rows[j]) ==> i == j
  }

  /** The table after `endSession(id, reason)`: only an open session is ended, so
      an end time and reason once written are never overwritten. */
  function Ended(rows: seq<SessionRow>, id: SessionId, reason: SessionEndReason, now: Time): (r: seq<SessionRow>)
    requires WellFormed(rows)
    ensures WellFormed(r) && |r| == |rows|
    ensures IsActive(rows, id) ==> r[id] == rows[id].(endedAt := Some(now), endedReason := Some(reason))
    ensures !IsActive(rows, id) ==> r == rows
    ensures forall i | 0 <= i < |rows| && i != id :: r[i] == rows[i]
  {
    if IsActive(rows, id) then rows[id := rows[id].(endedAt := Some(now), endedReason := Some(reason))] else rows
  }

  /** Ending is monotonic: `after` keeps every row of `before`, and every ended row exactly as it was. */
  ghost predicate EndsAreFinal(before: seq<SessionRow>, after: seq<SessionRow>)
  {
    |before| <= |after| &&
    forall i | 0 <= i < |before| :: before[i].endedAt.Some? ==> after[i] == before[i]
  }

  lemma EndedIsMonotonic(rows: seq<SessionRow>, id: SessionId, reason: SessionEndReason, now: Time)
    requires WellFormed(rows)
    ensures EndsAreFinal(rows, Ended(rows, id, reason, now))
    ensures forall i | 0 <= i < |rows| :: Ended(rows, id, reason, now)[i].endedAt.Some? <==>
                                           rows[i].endedAt.Some? || i == id
  {
  }

  /** Ending a session that has already ended changes nothing, so a first reason is never replaced. */
  lemma SecondEndIsNoOp(rows: seq<SessionRow>, id: SessionId, r1: SessionEndReason, r2: SessionEndReason, t1: Time, t2: Time)
    requires WellFormed(rows)
    ensures Ended(Ended(rows, id, r1, t1), id, r2, t2) == Ended(rows, id, r1, t1)
  {
  }

  class SessionTable {
    var rows: seq<SessionRow>

    ghost predicate Valid()
      reads this
    {
      WellFormed(rows)
    }

    constructor ()
      ensures Valid() && rows == []
    {
      rows := [];
    }

    /** `createSession(owner, type)`: insert an open session and return it. */
    method CreateSession(owner: UserId, kind: SessionType, now: Time) returns (s: SessionRow)
      requires Valid()
      modifies this
      ensures Valid() && EndsAreFinal(old(rows), rows)
      ensures s == SessionRow(|old(rows)|, owner, kind, now, None, None)
      ensures rows == old(rows) + [s]
    {
      s := SessionRow(|rows|, owner, kind, now, None, None);
      rows := rows + [s];
    }

    /** `endSession(id, reason)`: `UPDATE ... WHERE id = $1 AND ended_at IS NULL`. */
    method EndSession(id: SessionId, reason: SessionEndReason, now: Time)
      requires Valid()
      modifies this
      ensures Valid() && EndsAreFinal(old(rows), rows)
      ensures rows == Ended(old(rows), id, reason, now)
    {
      if id < |rows| && rows[id].endedAt.None? {
        rows := rows[id := rows[id].(endedAt := Some(now), endedReason := Some(reason))];
      }
    }
  }
}
