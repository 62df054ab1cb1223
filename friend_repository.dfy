/** The friends and friend_requests tables (repositories/friend.repository.ts).
    A friendship is stored as two directed rows; a friend request ends in
    accepted or declined by a conditional update guarded by both being null. */
module FriendRepository {
  import opened Domain

  /** The friends table: directed (user_id, friend_user_id) rows, unique by that pair. */
  type Friendships = set<(UserId, UserId)>

  /** Every friendship row has its mirror row. */
  ghost predicate Symmetric(f: Friendships)
  {
    forall a, b | (a, b) in f :: (b, a) in f
  }

  /** `areFriends(a, b)`: the directed row (a, b) exists. It reads the table and changes nothing. */
  predicate AreFriends(f: Friendships, a: UserId, b: UserId): (r: bool)
    ensures r <==> (a, b) in f
    // on a table kept symmetric the answer does not depend on the argument order
    ensures Symmetric(f) ==> (r <==> (b, a) in f)
  {
    (a, b) in f
  }

  /** On a symmetric table, being friends does not depend on the order of the two users. */
  lemma AreFriendsIsSymmetric(f: Friendships, a: UserId, b: UserId)
    requires Symmetric(f)
    ensures AreFriends(f, a, b) <==> AreFriends(f, b, a)
  {
  }

  /** The table after `createFriendship(a, b)`: both directions inserted, existing rows kept. */
  function Befriended(f: Friendships, a: UserId, b: UserId): (r: Friendships)
    ensures AreFriends(r, a, b) && AreFriends(r, b, a)
    ensures f <= r
    ensures forall p | p in r && p !in f :: p == (a, b) || p == (b, a)
    ensures Symmetric(f) ==> Symmetric(r)
  {
    f + {(a, b), (b, a)}
  }

  /** Repeating `createFriendship`, with the same or the swapped arguments, adds no row. */
  lemma BefriendedIsIdempotent(f: Friendships, a: UserId, b: UserId)
    ensures Befriended(Befriended(f, a, b), a, b) == Befriended(f, a, b)
    ensures Befriended(Befriended(f, a, b), b, a) == Befriended(f, a, b)
    ensures Befriended(f, b, a) == Befriended(f, a, b)
  {
  }

  /** On a symmetric table, befriending two users who are already friends changes nothing. */
  lemma BefriendingFriendsIsNoOp(f: Friendships, a: UserId, b: UserId)
    requires Symmetric(f) && AreFriends(f, a, b)
    ensures Befriended(f, a, b) == f
  {
  }

  class FriendTable {
    var pairs: Friendships

    ghost predicate Valid()
      reads this
    {
      Symmetric(pairs)
    }

    constructor ()
      ensures Valid() && pairs == {}
    {
      pairs := {};
    }

    /** `createFriendship(a, b)`: `INSERT (a, b), (b, a) ON CONFLICT DO NOTHING`. */
    method CreateFriendship(a: UserId, b: UserId)
      requires Valid()
      modifies this
      ensures Valid()
      ensures pairs == Befriended(old(pairs), a, b)
    {
      pairs := pairs + {(a, b), (b, a)};
    }
  }

  /** A row of friend_requests; `id` is its position in the table. */
  datatype FriendRequestRow = FriendRequestRow(
    id: RequestId, from: UserId, to: UserId, createdAt: Time, acceptedAt: Option<Time>, declinedAt: Option<Time>)

  predicate Pending(r: FriendRequestRow)
  {
    r.acceptedAt.None? && r.declinedAt.None?
  }

  /** True iff some request from `from` to `to` is still pending. */
  predicate HasPendingBetween(rows: seq<FriendRequestRow>, from: UserId, to: UserId)
  {
    exists i | 0 <= i < |rows| :: rows[i].from == from && rows[i].to == to && Pending(rows[i])
  }

  /** Ids are positions, no request is both accepted and declined, and the
      store's uniqueness guarantee holds: at most one pending request per
      (from, to) pair. */
  ghost predicate WellFormed(rows: seq<FriendRequestRow>)
  {
    (forall i | 0 <= i < |rows| :: rows[i].id == i && !(rows[i].acceptedAt.Some? && rows[i].declinedAt.Some?)) &&
    (forall i, j | 0 <= i < j < |rows| && Pending(rows[i]) && Pending(rows[j]) ::
       !(rows[i].from == rows[j].from && rows[i].to == rows[j].to))
  }

  /** Which conditional update runs: `markAccepted` or `markDeclined`. */
  datatype Verdict = Accept | Decline

  /** The table and the result (`rowCount === 1`) of a conditional mark. */
  function Mark(rows: seq<FriendRequestRow>, id: RequestId, v: Verdict, now: Time): (r: (seq<FriendRequestRow>, bool))
    requires WellFormed(rows)
    ensures WellFormed(r.0) && |r.0| == |rows|
    // it succeeds exactly on a request that exists and is still pending
    ensures r.1 <==> id < |rows| && Pending(rows[id])
    ensures !r.1 ==> r.0 == rows
    // a successful mark sets its own field and changes nothing else
    ensures r.1 ==> forall i | 0 <= i < |rows| && i != id :: r.0[i] == rows[i]
    ensures r.1 ==> !Pending(r.0[id])
    ensures r.1 ==> (r.0[id].acceptedAt == (if v == Accept then Some(now) else None)
                  && r.0[id].declinedAt == (if v == Decline then Some(now) else None)
                  && r.0[id].from == rows[id].from && r.0[id].to == rows[id].to
                  && r.0[id].createdAt == rows[id].createdAt && r.0[id].id == id)
  {
    if id < |rows| && Pending(rows[id]) then
      (rows[id := if v == Accept then rows[id].(acceptedAt := Some(now)) else rows[id].(declinedAt := Some(now))], true)
    else (rows, false)
  }

  /** Terminal stickiness: once either mark succeeded, both marks fail from then on and change nothing. */
  lemma MarkIsFinal(rows: seq<FriendRequestRow>, id: RequestId, v: Verdict, w: Verdict, now: Time, later: Time)
    requires WellFormed(rows)
    requires Mark(rows, id, v, now).1
    ensures Mark(Mark(rows, id, v, now).0, id, w, later) == (Mark(rows, id, v, now).0, false)
  {
  }

  /** `create(from, to)`: the table after the insert and the new row, or the
      store's uniqueness failure when a pending request from `from` to `to`
      already exists. */
  function Created(rows: seq<FriendRequestRow>, from: UserId, to: UserId, now: Time): (r: (seq<FriendRequestRow>, Option<FriendRequestRow>))
    requires WellFormed(rows)
    ensures WellFormed(r.0)
    ensures r.1.None? <==> HasPendingBetween(rows, from, to)
    ensures r.1.None? ==> r.0 == rows
    ensures r.1.Some? ==> (r.1.value == FriendRequestRow(|rows|, from, to, now, None, None)
                        && r.0 == rows + [r.1.value])
  {
    if HasPendingBetween(rows, from, to) then (rows, None)
    else
      var row := FriendRequestRow(|rows|, from, to, now, None, None);
      assert forall i | 0 <= i < |rows| && rows[i].from == from && rows[i].to == to :: !Pending(rows[i]);
      (rows + [row], Some(row))
  }

  /** `findById`: the row with that id, or none for an unknown id. */
  function FindById(rows: seq<FriendRequestRow>, id: RequestId): (r: Option<FriendRequestRow>)
    requires WellFormed(rows)
    ensures r.None? <==> forall i | 0 <= i < |rows| :: rows[i].id != id
    ensures r.Some? ==> r.value in rows && r.value.id == id
  {
    if id < |rows| then Some(rows[id]) else None
  }

  /** `listPendingForUser(u)`: the pending requests to `u`, newest first. */
  function PendingFor(rows: seq<FriendRequestRow>, u: UserId): (r: seq<FriendRequestRow>)
    requires WellFormed(rows)
    ensures forall x | x in r :: x in rows && x.to == u && Pending(x) && x.id < |rows|
    ensures forall i | 0 <= i < |rows| && rows[i].to == u && Pending(rows[i]) :: rows[i] in r
    ensures forall i, j | 0 <= i < j < |r| :: r[i].id > r[j].id
    decreases |rows|
  {
    if rows == [] then []
    else
      var n := |rows| - 1;
      var older := PendingFor(rows[..n], u);
      assert forall x | x in older :: x.id < n;
      if rows[n].to == u && Pending(rows[n]) then [rows[n]] + older else older
  }

  class FriendRequestTable {
    var rows: seq<FriendRequestRow>

    ghost predicate Valid()
      reads this
    {
      WellFormed(rows)
    }

    constructor ()
      ensures Valid() && rows == []
    {
      rows := [];
    }

    /** `create(from, to)`: the new pending request, or the store's error for a duplicate pending one. */
    method Create(from: UserId, to: UserId, now: Time) returns (r: Result<FriendRequestRow, Failure>)
      requires Valid()
      modifies this
      ensures Valid()
      ensures r.Err? <==> Created(old(rows), from, to, now).1.None?
      ensures r.Err? ==> r.error == UnexpectedError(DUPLICATE_PENDING)
      ensures r.Ok? ==> Created(old(rows), from, to, now).1 == Some(r.value)
      ensures rows == Created(old(rows), from, to, now).0
    {
      if HasPendingBetween(rows, from, to) {
        return Err(UnexpectedError(DUPLICATE_PENDING));
      }
      var row := FriendRequestRow(|rows|, from, to, now, None, None);
      rows := rows + [row];
      return Ok(row);
    }

    /** `markAccepted(id)`. */
    method MarkAccepted(id: RequestId, now: Time) returns (ok: bool)
      requires Valid()
      modifies this
      ensures Valid()
      ensures (rows, ok) == Mark(old(rows), id, Accept, now)
    {
      ok := id < |rows| && Pending(rows[id]);
      if ok {
        rows := rows[id := rows[id].(acceptedAt := Some(now))];
      }
    }

    /** `markDeclined(id)`. */
    method MarkDeclined(id: RequestId, now: Time) returns (ok: bool)
      requires Valid()
      modifies this
      ensures Valid()
      ensures (rows, ok) == Mark(old(rows), id, Decline, now)
    {
      ok := id < |rows| && Pending(rows[id]);
      if ok {
        rows := rows[id := rows[id].(declinedAt := Some(now))];
      }
    }

    /** `ROLLBACK`: the table returns to what it was at `BEGIN`. */
    method Rollback(begin: seq<FriendRequestRow>)
      requires WellFormed(begin)
      modifies this
      ensures Valid() && rows == begin
    {
      rows := begin;
    }
  }

  /** The message of the store's unique-constraint violation on a second pending request. */
  const DUPLICATE_PENDING := "duplicate key value violates unique constraint"
}
