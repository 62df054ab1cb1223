/** The process-wide registry of each user's live socket ids
    (realtime/connection.manager.ts). */
module Connections {
  import opened Domain

  /** The registry keeps no empty entry: a user is present only while at least one socket is. */
  ghost predicate NoEmptyEntries(m: map<UserId, set<SocketId>>)
  {
    forall u | u in m :: m[u] != {}
  }

  /** The entry of `u`, or the empty set for an unknown user. */
  function SocketsOf(m: map<UserId, set<SocketId>>, u: UserId): set<SocketId>
  {
    if u in m then m[u] else {}
  }

  /** The registry after `add(u, s)`. */
  function Added(m: map<UserId, set<SocketId>>, u: UserId, s: SocketId): (m': map<UserId, set<SocketId>>)
    ensures NoEmptyEntries(m) ==> NoEmptyEntries(m')
    ensures SocketsOf(m', u) == SocketsOf(m, u) + {s}
    ensures forall v | v != u :: SocketsOf(m', v) == SocketsOf(m, v)
  {
    m[u := SocketsOf(m, u) + {s}]
  }

  /** The registry after `remove(u, s)`: the id is dropped and an entry left empty is deleted. */
  function Removed(m: map<UserId, set<SocketId>>, u: UserId, s: SocketId): (m': map<UserId, set<SocketId>>)
    ensures NoEmptyEntries(m) ==> NoEmptyEntries(m')
    ensures SocketsOf(m', u) == SocketsOf(m, u) - {s}
    ensures forall v | v != u :: SocketsOf(m', v) == SocketsOf(m, v)
    ensures u !in m ==> m' == m
  {
    if u !in m then m
    else if m[u] - {s} == {} then m - {u}
    else m[u := m[u] - {s}]
  }

  /** Adding an id that is already registered changes nothing. */
  lemma AddIsIdempotent(m: map<UserId, set<SocketId>>, u: UserId, s: SocketId)
    ensures Added(Added(m, u, s), u, s) == Added(m, u, s)
  {
  }

  /** Removing what was just added leaves every user's sockets as they were
      before, provided the id was new. */
  lemma RemoveUndoesAdd(m: map<UserId, set<SocketId>>, u: UserId, s: SocketId, v: UserId)
    requires s !in SocketsOf(m, u)
    ensures SocketsOf(Removed(Added(m, u, s), u, s), v) == SocketsOf(m, v)
  {
  }

  class ConnectionManager {
    /** `userSockets`: user id -> the set of that user's socket ids. */
    var userSockets: map<UserId, set<SocketId>>

    ghost predicate Valid()
      reads this
    {
      NoEmptyEntries(userSockets)
    }

    function Sockets(u: UserId): set<SocketId>
      reads this
    {
      SocketsOf(userSockets, u)
    }

    constructor ()
      ensures Valid() && userSockets == map[]
    {
      userSockets := map[];
    }

    /** `add(userId, socket)`: create the entry if missing, then insert the id. */
    method Add(u: UserId, s: SocketId)
      requires Valid()
      modifies this
      ensures Valid()
      ensures userSockets == Added(old(userSockets), u, s)
    {
      if u !in userSockets {
        userSockets := userSockets[u := {}];
      }
      userSockets := userSockets[u := userSockets[u] + {s}];
    }

    /** `remove(userId, socketId)`: a no-op for an unknown user; deletes the entry once empty. */
    method Remove(u: UserId, s: SocketId)
      requires Valid()
      modifies this
      ensures Valid()
      ensures userSockets == Removed(old(userSockets), u, s)
    {
      if u !in userSockets {
        return;
      }
      var rest := userSockets[u] - {s};
      userSockets := userSockets[u := rest];
      if |rest| == 0 {
        userSockets := userSockets - {u};
      }
    }

    /** `getSockets(userId)`: `Array.from` of the user's set, each id once, in no promised order. */
    method GetSockets(u: UserId) returns (ids: seq<SocketId>)
      ensures forall s :: s in ids <==> s in Sockets(u)
      ensures forall i, j | 0 <= i < j < |ids| :: ids[i] != ids[j]
    {
      ids := [];
      var rest := Sockets(u);
      while rest != {}
        invariant forall s :: s in Sockets(u) <==> s in ids || s in rest
        invariant forall s | s in ids :: s !in rest
        invariant forall i, j | 0 <= i < j < |ids| :: ids[i] != ids[j]
        decreases rest
      {
        var s :| s in rest;
        ids := ids + [s];
        rest := rest - {s};
      }
    }
  }
}
