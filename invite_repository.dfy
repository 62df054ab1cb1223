/** The invites table (repositories/invite.repository.ts): a pending invite
    ends in exactly one of accepted, declined or revoked, by a conditional
    update that only succeeds while all three are null. */
module InviteRepository {
  import opened Domain

  /** A row of invites; `id` is its position in the table. */
  datatype InviteRow = InviteRow(
    id: InviteId, from: UserId, to: UserId, sessionId: SessionId, sessionType: SessionType, createdAt: Time,
    acceptedAt: Option<Time>, declinedAt: Option<Time>, revokedAt: Option<Time>)

  predicate Pending(r: InviteRow)
  {
    r.acceptedAt.None? && r.declinedAt.None? && r.revokedAt.None?
  }

  /** At most one of the three terminal fields is set. */
  predicate AtMostOneTerminal(r: InviteRow)
  {
    (r.acceptedAt.Some? ==> r.declinedAt.None? && r.revokedAt.None?) &&
    (r.declinedAt.Some? ==> r.revokedAt.None?)
  }

  ghost predicate WellFormed(rows: seq<InviteRow>)
  {
    forall i | 0 <= i < |rows| :: rows[i].id == i && AtMostOneTerminal(rows[i])
  }

  /** Which conditional update runs: `markAccepted`, `markDeclined` or `markRevoked`. */
  datatype Verdict = Accept | Decline | Revoke

  /** The row after its verdict's field is set to `now`. */
  function Settled(r: InviteRow, v: Verdict, now: Time): InviteRow
  {
    match v
    case Accept => r.(acceptedAt := Some(now))
    case Decline => r.(declinedAt := Some(now))
    case Revoke => r.(revokedAt := Some(now))
  }

  /** The table and the result (`rowCount === 1`) of a conditional mark. */
  function Mark(rows: seq<InviteRow>, id: InviteId, v: Verdict, now: Time): (r: (seq<InviteRow>, bool))
    requires WellFormed(rows)
    ensures WellFormed(r.0) && |r.0| == |rows|
    // it succeeds exactly on a row that exists and is still pending
    ensures r.1 <==> id < |rows| && Pending(rows[id])
    // a failed mark changes no row
    ensures !r.1 ==> r.0 == rows
    // a successful one changes only that row, and only its own field, which it sets
    ensures r.1 ==> forall i | 0 <= i < |rows| && i != id :: r.0[i] == rows[i]
    ensures r.1 ==> !Pending(r.0[id])
    ensures r.1 ==> (r.0[id].acceptedAt == (if v == Accept then Some(now) else None)
                  && r.0[id].declinedAt == (if v == Decline then Some(now) else None)
                  && r.0[id].revokedAt == (if v == Revoke then Some(now) else None))
    ensures r.1 ==> r.0[id] == Settled(rows[id], v, now)
  {
    if id < |rows| && Pending(rows[id]) then (rows[id := Settled(rows[id], v, now)], true) else (rows, false)
  }

  /** Terminal stickiness: once a mark succeeded, every later mark of that invite fails and changes nothing. */
  lemma MarkIsFinal(rows: seq<InviteRow>, id: InviteId, v: Verdict, w: Verdict, now: Time, later: Time)
    requires WellFormed(rows)
    requires Mark(rows, id, v, now).1
    ensures Mark(Mark(rows, id, v, now).0, id, w, later) == (Mark(rows, id, v, now).0, false)
  {
  }

  /** The table after a run of marks of invite `id`, and how many of them succeeded. */
  function MarkAll(rows: seq<InviteRow>, id: InviteId, marks: seq<(Verdict, Time)>): (r: (seq<InviteRow>, nat))
    requires WellFormed(rows)
    ensures WellFormed(r.0)
    decreases |marks|
  {
    if marks == [] then (rows, 0)
    else
      var first := Mark(rows, id, marks[0].0, marks[0].1);
      var rest := MarkAll(first.0, id, marks[1..]);
      (rest.0, rest.1 + (if first.1 then 1 else 0))
  }

  /** However many marks of one invite run, one after another, at most one
      succeeds, and none does unless the invite was pending. */
  lemma {:induction false} AtMostOneMarkSucceeds(rows: seq<InviteRow>, id: InviteId, marks: seq<(Verdict, Time)>)
    requires WellFormed(rows)
    ensures MarkAll(rows, id, marks).1 <= if id < |rows| && Pending(rows[id]) then 1 else 0
    decreases |marks|
  {
    if marks != [] {
      var first := Mark(rows, id, marks[0].0, marks[0].1);
      AtMostOneMarkSucceeds(first.0, id, marks[1..]);
    }
  }

  /** `findById`: the row with that id, or none for an unknown id. */
  function FindById(rows: seq<InviteRow>, id: InviteId): (r: Option<InviteRow>)
    requires WellFormed(rows)
    ensures r.None? <==> forall i | 0 <= i < |rows| :: rows[i].id != id
    ensures r.Some? ==> r.value in rows && r.value.id == id
  {
    if id < |rows| then Some(rows[id]) else None
  }

  /** `listPendingForUser(u)`: the pending invites to `u`, newest first. */
  function PendingFor(rows: seq<InviteRow>, u: UserId): (r: seq<InviteRow>)
    requires WellFormed(rows)
    ensures forall x | x in r :: x in rows && x.to == u && Pending(x) && x.id < |rows|
    ensures forall i | 0 <= i < |rows| && rows[i].to == u && Pending(rows[i]) :: rows[i] in r
    ensures forall i, j | 0 <= i < j < |r| :: r[i].id > r[j].id
    decreases |rows|
  {
    if rows == [] then []
    else
      var n := |rows| - 1;
      var older := PendingFor(rows[..n], u);
      assert forall x | x in older :: x.id < n;
      if rows[n].to == u && Pending(rows[n]) then [rows[n]] + older else older
  }

  class InviteTable {
    var rows: seq<InviteRow>

    ghost predicate Valid()
      reads this
    {
      WellFormed(rows)
    }

    constructor ()
      ensures Valid() && rows == []
    {
      rows := [];
    }

    /** `create(from, to, sessionId, sessionType)`: insert a pending invite and return it. */
    method Create(from: UserId, to: UserId, sid: SessionId, kind: SessionType, now: Time) returns (inv: InviteRow)
      requires Valid()
      modifies this
      ensures Valid()
      ensures inv == InviteRow(|old(rows)|, from, to, sid, kind, now, None, None, None) && Pending(inv)
      ensures rows == old(rows) + [inv]
    {
      inv := InviteRow(|rows|, from, to, sid, kind, now, None, None, None);
      rows := rows + [inv];
    }

    /** `markAccepted(id)`. */
    method MarkAccepted(id: InviteId, now: Time) returns (ok: bool)
      requires Valid()
      modifies this
      ensures Valid()
      ensures (rows, ok) == Mark(old(rows), id, Accept, now)
    {
      ok := id < |rows| && Pending(rows[id]);
      if ok {
        rows := rows[id := rows[id].(acceptedAt := Some(now))];
      }
    }

    /** `markDeclined(id)`. */
    method MarkDeclined(id: InviteId, now: Time) returns (ok: bool)
      requires Valid()
      modifies this
      ensures Valid()
      ensures (rows, ok) == Mark(old(rows), id, Decline, now)
    {
      ok := id < |rows| && Pending(rows[id]);
      if ok {
        rows := rows[id := rows[id].(declinedAt := Some(now))];
      }
    }

    /** `markRevoked(id)`. */
    method MarkRevoked(id: InviteId, now: Time) returns (ok: bool)
      requires Valid()
      modifies this
      ensures Valid()
      ensures (rows, ok) == Mark(old(rows), id, Revoke, now)
    {
      ok := id < |rows| && Pending(rows[id]);
      if ok {
        rows := rows[id := rows[id].(revokedAt := Some(now))];
      }
    }
  }
}
