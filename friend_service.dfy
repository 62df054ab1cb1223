/** The friend commands of services/friend.service.ts: sending a request,
    accepting it together with the friendship in one transaction, declining
    it, and the `areFriends` lookup. */
module FriendService {
  import opened Domain
  import opened FriendRepository

  /** `sendRequest(from, to)`. */
  method SendRequest(friends: FriendTable, requests: FriendRequestTable, from: UserId, to: UserId, now: Time)
    returns (r: Result<FriendRequestRow, Failure>)
    requires friends.Valid() && requests.Valid()
    modifies requests
    ensures requests.Valid()
    // self-requests are refused before any lookup, then existing friendships
    ensures from == to ==> r == Err(Raise(CannotFriendSelf))
    ensures from != to && AreFriends(friends.pairs, from, to) ==> r == Err(Raise(AlreadyFriends))
    // a second pending request between the same users is refused by the store
    ensures from != to && !AreFriends(friends.pairs, from, to) && HasPendingBetween(old(requests.rows), from, to) ==>
              r == Err(UnexpectedError(DUPLICATE_PENDING))
    ensures r.Ok? <==> from != to && !AreFriends(friends.pairs, from, to) && !HasPendingBetween(old(requests.rows), from, to)
    ensures r.Ok? ==> (r.value == FriendRequestRow(|old(requests.rows)|, from, to, now, None, None)
                    && Pending(r.value) && requests.rows == old(requests.rows) + [r.value])
    ensures r.Err? ==> requests.rows == old(requests.rows)
  {
    if from == to {
      return Err(Raise(CannotFriendSelf));
    }
    if AreFriends(friends.pairs, from, to) {
      return Err(Raise(AlreadyFriends));
    }
    r := requests.Create(from, to, now);
  }

  /** The checks `acceptRequest` runs before its transaction, in order. They read and change nothing. */
  method CheckRequest(requests: FriendRequestTable, id: RequestId, u: UserId) returns (r: Result<FriendRequestRow, Failure>)
    requires requests.Valid()
    ensures id >= |requests.rows| ==> r == Err(Raise(FriendRequestNotFound))
    ensures id < |requests.rows| && requests.rows[id].to != u ==> r == Err(Raise(NotYourFriendRequest))
    ensures id < |requests.rows| && requests.rows[id].to == u && !Pending(requests.rows[id]) ==>
              r == Err(Raise(FriendRequestNotPending))
    ensures r.Ok? <==> id < |requests.rows| && requests.rows[id].to == u && Pending(requests.rows[id])
    // when the checks pass, the guarded update that follows them succeeds
    ensures r.Ok? ==> r.value == requests.rows[id] && Mark(requests.rows, id, Accept, 0).1
  {
    var found := FindById(requests.rows, id);
    if found.None? {
      return Err(Raise(FriendRequestNotFound));
    }
    if found.value.to != u {
      return Err(Raise(NotYourFriendRequest));
    }
    if !Pending(found.value) {
      return Err(Raise(FriendRequestNotPending));
    }
    return Ok(found.value);
  }

  /** The transaction of `acceptRequest` for the request `id` from `from` to
      `to`: mark it accepted, then either create the friendship and commit, or
      roll back (the request stays as it was) when the mark fails or the two
      are already friends. */
  method CommitAccept(friends: FriendTable, requests: FriendRequestTable, id: RequestId, from: UserId, to: UserId, now: Time)
    returns (r: Result<(), Failure>)
    requires friends.Valid() && requests.Valid()
    modifies friends, requests
    ensures friends.Valid() && requests.Valid()
    ensures !(id < |old(requests.rows)| && Pending(old(requests.rows)[id])) ==> r == Err(Raise(FriendRequestNotPending))
    ensures id < |old(requests.rows)| && Pending(old(requests.rows)[id]) && AreFriends(old(friends.pairs), from, to) ==>
              r == Err(Raise(AlreadyFriends))
    ensures r.Ok? <==> id < |old(requests.rows)| && Pending(old(requests.rows)[id]) && !AreFriends(old(friends.pairs), from, to)
    // both effects or neither
    ensures r.Ok? ==> (requests.rows == Mark(old(requests.rows), id, Accept, now).0
                    && friends.pairs == Befriended(old(friends.pairs), from, to))
    ensures r.Err? ==> requests.rows == old(requests.rows) && friends.pairs == old(friends.pairs)
  {
    var begin := requests.rows;
    var accepted := requests.MarkAccepted(id, now);
    if !accepted {
      return Err(Raise(FriendRequestNotPending));
    }
    if AreFriends(friends.pairs, from, to) {
      requests.Rollback(begin);
      return Err(Raise(AlreadyFriends));
    }
    friends.CreateFriendship(from, to);
    return Ok(());
  }

  /** `acceptRequest(id, u)`. */
  method AcceptRequest(friends: FriendTable, requests: FriendRequestTable, id: RequestId, u: UserId, now: Time)
    returns (r: Result<(), Failure>)
    requires friends.Valid() && requests.Valid()
    modifies friends, requests
    ensures friends.Valid() && requests.Valid()
    ensures id >= |old(requests.rows)| ==> r == Err(Raise(FriendRequestNotFound))
    ensures id < |old(requests.rows)| && old(requests.rows)[id].to != u ==> r == Err(Raise(NotYourFriendRequest))
    ensures id < |old(requests.rows)| && old(requests.rows)[id].to == u && !Pending(old(requests.rows)[id]) ==>
              r == Err(Raise(FriendRequestNotPending))
    ensures id < |old(requests.rows)| && old(requests.rows)[id].to == u && Pending(old(requests.rows)[id]) &&
            AreFriends(old(friends.pairs), old(requests.rows)[id].from, u) ==>
              r == Err(Raise(AlreadyFriends))
    ensures r.Ok? <==> id < |old(requests.rows)| && old(requests.rows)[id].to == u && Pending(old(requests.rows)[id]) &&
                       !AreFriends(old(friends.pairs), old(requests.rows)[id].from, u)
    // on success the request is accepted and the two are friends both ways; on failure nothing changed
    ensures r.Ok? ==> (requests.rows == old(requests.rows)[id := old(requests.rows)[id].(acceptedAt := Some(now))]
                    && friends.pairs == Befriended(old(friends.pairs), old(requests.rows)[id].from, u)
                    && AreFriends(friends.pairs, u, old(requests.rows)[id].from))
    ensures r.Err? ==> requests.rows == old(requests.rows) && friends.pairs == old(friends.pairs)
  {
    var checked := CheckRequest(requests, id, u);
    if checked.Err? {
      return Err(checked.error);
    }
    r := CommitAccept(friends, requests, id, checked.value.from, checked.value.to, now);
  }

  /** `declineRequest(id, u)`: it never touches the friends table. */
  method DeclineRequest(requests: FriendRequestTable, id: RequestId, u: UserId, now: Time) returns (r: Result<(), Failure>)
    requires requests.Valid()
    modifies requests
    ensures requests.Valid()
    ensures id >= |old(requests.rows)| ==> r == Err(Raise(FriendRequestNotFound))
    ensures id < |old(requests.rows)| && old(requests.rows)[id].to != u ==> r == Err(Raise(NotYourFriendRequest))
    ensures id < |old(requests.rows)| && old(requests.rows)[id].to == u && !Pending(old(requests.rows)[id]) ==>
              r == Err(Raise(FriendRequestNotPending))
    ensures r.Ok? <==> id < |old(requests.rows)| && old(requests.rows)[id].to == u && Pending(old(requests.rows)[id])
    ensures r.Ok? ==> requests.rows == old(requests.rows)[id := old(requests.rows)[id].(declinedAt := Some(now))]
    ensures r.Err? ==> requests.rows == old(requests.rows)
  {
    var checked := CheckRequest(requests, id, u);
    if checked.Err? {
      return Err(checked.error);
    }
    var declined := requests.MarkDeclined(id, now);
    r := if declined then Ok(()) else Err(Raise(FriendRequestNotPending));
  }
}
