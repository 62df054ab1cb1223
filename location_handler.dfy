/** The `location_update` socket handler and its throttle timer
    (realtime/handlers/location.handler.ts): per user, one pending sample
    (last write wins) and at most one scheduled flush. */
module LocationHandler {
  import opened Domain
  import opened SocketIo
  import Connections
  import LiveLocation

  /** The throttle window; the timer firing is the explicit `Fire` step. */
  const THROTTLE_MS := 1000

  /** The inbound payload `{ lat, lng, accuracy }`. */
  datatype Sample = Sample(lat: Coordinate, lng: Coordinate, accuracy: Coordinate)

  /** A pending sample: the payload, when it arrived, and the session tag of the sending socket. */
  datatype Pending = Pending(lat: Coordinate, lng: Coordinate, accuracy: Coordinate, timestamp: Time, sessionId: SessionId)

  /** `pendingByUser` and the keys of `timerByUser`. */
  datatype Throttle = Throttle(pending: map<UserId, Pending>, timers: set<UserId>)

  /** A user has a pending sample exactly when a timer is scheduled for them. */
  ghost predicate Consistent(t: Throttle)
  {
    t.pending.Keys == t.timers
  }

  /** Whether an accepted update from `u` schedules a new timer. */
  predicate Schedules(t: Throttle, u: UserId)
  {
    u !in t.timers
  }

  /** The state after an accepted update: overwrite the sample, schedule a timer unless one exists. */
  function Updated(t: Throttle, u: UserId, p: Pending): (t': Throttle)
    ensures Consistent(t) ==> Consistent(t')
    ensures u in t'.pending && t'.pending[u] == p && u in t'.timers
    ensures !Schedules(t, u) ==> t'.timers == t.timers
    ensures forall v | v != u :: (v in t'.pending <==> v in t.pending) && (v in t'.timers <==> v in t.timers)
    ensures forall v | v != u && v in t.pending :: t'.pending[v] == t.pending[v]
  {
    Throttle(t.pending[u := p], if u in t.timers then t.timers else t.timers + {u})
  }

  /** The state after `u`'s timer fires, whether or not it emitted. */
  function Flushed(t: Throttle, u: UserId): (t': Throttle)
    ensures Consistent(t) ==> Consistent(t')
    ensures u !in t'.pending && Schedules(t', u)
    ensures forall v | v != u :: (v in t'.pending <==> v in t.pending) && (v in t'.timers <==> v in t.timers)
    ensures forall v | v != u && v in t.pending :: t'.pending[v] == t.pending[v]
  {
    Throttle(t.pending - {u}, t.timers - {u})
  }

  /** The one event a flush emits: to the room of the sample's session only. */
  function FlushEmission(u: UserId, p: Pending): Emission
  {
    Emission(ToRoom(SessionRoom(p.sessionId)),
             LocationUpdate(u, p.lat, p.lng, p.accuracy, p.timestamp))
  }

  /** After a flush, the next accepted update schedules a fresh timer. */
  lemma FlushReArms(t: Throttle, u: UserId, p: Pending)
    ensures Schedules(Flushed(t, u), u)
    ensures u in Updated(Flushed(t, u), u, p).timers
  {
  }

  /** The state after a run of accepted updates from `u`. */
  function UpdatedAll(t: Throttle, u: UserId, ps: seq<Pending>): Throttle
    decreases |ps|
  {
    if ps == [] then t else UpdatedAll(Updated(t, u, ps[0]), u, ps[1..])
  }

  /** How many of those updates scheduled a timer. */
  function TimersScheduled(t: Throttle, u: UserId, ps: seq<Pending>): nat
    decreases |ps|
  {
    if ps == [] then 0
    else (if Schedules(t, u) then 1 else 0) + TimersScheduled(Updated(t, u, ps[0]), u, ps[1..])
  }

  /** N accepted updates before a flush coalesce: the pending sample is the
      last one, a timer is scheduled, and at most one of them scheduled it
      (none when a timer was already running). */
  lemma {:induction false} Coalesce(t: Throttle, u: UserId, ps: seq<Pending>)
    requires |ps| > 0
    ensures var t' := UpdatedAll(t, u, ps); u in t'.pending && t'.pending[u] == ps[|ps| - 1] && u in t'.timers
    ensures TimersScheduled(t, u, ps) == if Schedules(t, u) then 1 else 0
    decreases |ps|
  {
    if |ps| > 1 {
      var t1 := Updated(t, u, ps[0]);
      Coalesce(t1, u, ps[1..]);
      assert ps[1..][|ps[1..]| - 1] == ps[|ps| - 1];
      var rest := TimersScheduled(t1, u, ps[1..]);
      assert rest == 0;
    } else {
      assert ps[1..] == [];
    }
  }

  /** True iff `u` still has a live socket tagged with session `sid`. */
  ghost predicate StillInSession(userSockets: map<UserId, set<SocketId>>, sockets: map<SocketId, SocketCtx>, u: UserId, sid: SessionId)
  {
    exists s | s in Connections.SocketsOf(userSockets, u) :: TaggedWith(sockets, s, sid)
  }

  /** `userSockets.some(id => sockets.get(id)?.sessionId === sid)`. */
  method AnyTagged(io: SocketServer, ids: seq<SocketId>, sid: SessionId) returns (found: bool)
    ensures found <==> exists i | 0 <= i < |ids| :: TaggedWith(io.sockets, ids[i], sid)
  {
    found := false;
    var i := 0;
    while i < |ids| && !found
      invariant 0 <= i <= |ids|
      invariant found <==> exists j | 0 <= j < i :: TaggedWith(io.sockets, ids[j], sid)
    {
      found := TaggedWith(io.sockets, ids[i], sid);
      i := i + 1;
    }
  }

  class LocationThrottle {
    var pendingByUser: map<UserId, Pending>
    /** The users with a scheduled flush (the keys of `timerByUser`). */
    var timerByUser: set<UserId>

    ghost function State(): Throttle
      reads this
    {
      Throttle(pendingByUser, timerByUser)
    }

    ghost predicate Valid()
      reads this
    {
      Consistent(State())
    }

    constructor ()
      ensures Valid() && pendingByUser == map[] && timerByUser == {}
    {
      pendingByUser := map[];
      timerByUser := {};
    }

    /** The handler for a `location_update` from socket `id`. */
    method OnLocationUpdate(io: SocketServer, id: SocketId, payload: Sample, now: Time, store: LiveLocation.LocationStore)
      requires Valid()
      requires id in io.sockets
      modifies this, store
      ensures Valid()
      // a socket without a user or without a session tag changes nothing
      ensures var ctx := io.sockets[id];
        ctx.userId == "" || ctx.sessionId.None? ==>
          State() == old(State()) && store.live == old(store.live)
      // otherwise the live location is written and the sample becomes the pending one
      ensures var ctx := io.sockets[id];
        ctx.userId != "" && ctx.sessionId.Some? ==>
          store.live == old(store.live)[ctx.userId := LiveLocation.LocationPayload(payload.lat, payload.lng, payload.accuracy, now)]
          && State() == Updated(old(State()), ctx.userId,
                                Pending(payload.lat, payload.lng, payload.accuracy, now, ctx.sessionId.value))
    {
      var u := io.sockets[id].userId;
      var sessionId := io.sockets[id].sessionId;
      if u == "" || sessionId.None? {
        return;
      }
      store.Update(u, payload.lat, payload.lng, payload.accuracy, now);
      pendingByUser := pendingByUser[u := Pending(payload.lat, payload.lng, payload.accuracy, now, sessionId.value)];
      if u in timerByUser {
        return;
      }
      timerByUser := timerByUser + {u};
    }

    /** The timer callback of `u`: re-check the session tag, then emit once or drop the sample. */
    method Fire(u: UserId, manager: Connections.ConnectionManager, io: SocketServer)
      requires Valid()
      requires u in timerByUser
      modifies this, io
      ensures Valid()
      ensures State() == Flushed(old(State()), u)
      ensures io.sockets == old(io.sockets)
      ensures var p := old(pendingByUser[u]);
        io.emitted == old(io.emitted) +
          (if StillInSession(manager.userSockets, io.sockets, u, p.sessionId) then [FlushEmission(u, p)] else [])
    {
      var pending := pendingByUser[u];
      var ids := manager.GetSockets(u);
      var still := AnyTagged(io, ids, pending.sessionId);
      if !still {
        forall s | s in manager.Sockets(u)
          ensures !TaggedWith(io.sockets, s, pending.sessionId)
        {
          var i :| 0 <= i < |ids| && ids[i] == s;
        }
        pendingByUser := pendingByUser - {u};
        timerByUser := timerByUser - {u};
        return;
      }
      ghost var i :| 0 <= i < |ids| && TaggedWith(io.sockets, ids[i], pending.sessionId);
      assert ids[i] in manager.Sockets(u);
      io.Emit(ToRoom(SessionRoom(pending.sessionId)),
              LocationUpdate(u, pending.lat, pending.lng, pending.accuracy, pending.timestamp));
      pendingByUser := pendingByUser - {u};
      timerByUser := timerByUser - {u};
    }
  }
}
