/** Edge-triggered online/offline presence over the `presence:<user>` keys
    (services/presence.service.ts). */
module PresenceService {
  import opened Domain
  import opened SocketIo

  const PRESENCE_TTL_SECONDS := 30

  datatype PresencePayload = PresencePayload(sessionId: SessionId, lastSeen: Time)

  /** The keys after a heartbeat, and the events it emits: `user_online` only
      when the key did not exist before the write. */
  function HeartbeatStep(keys: map<UserId, PresencePayload>, u: UserId, s: SessionId, now: Time)
    : (r: (map<UserId, PresencePayload>, seq<Event>))
    ensures r.0 == keys[u := PresencePayload(s, now)]
    ensures u !in keys <==> r.1 == [UserOnline(u, s, now)]
    ensures u in keys <==> r.1 == []
  {
    (keys[u := PresencePayload(s, now)], if u in keys then [] else [UserOnline(u, s, now)])
  }

  /** The keys after `clearPresence`, and its events: `user_offline` only when a key was deleted. */
  function ClearStep(keys: map<UserId, PresencePayload>, u: UserId, now: Time)
    : (r: (map<UserId, PresencePayload>, seq<Event>))
    ensures r.0 == keys - {u}
    ensures u in keys <==> r.1 == [UserOffline(u, now)]
    ensures u !in keys <==> r.1 == []
  {
    (keys - {u}, if u in keys then [UserOffline(u, now)] else [])
  }

  /** One thing that can happen to the presence keys: a heartbeat, an explicit
      clear, or the TTL of a key elapsing (which emits nothing). */
  datatype Step = Beat(user: UserId, session: SessionId, now: Time) | ClearKey(user: UserId, now: Time) | TtlElapsed(user: UserId)

  function Apply(keys: map<UserId, PresencePayload>, step: Step): (map<UserId, PresencePayload>, seq<Event>)
  {
    match step
    case Beat(u, s, now) => HeartbeatStep(keys, u, s, now)
    case ClearKey(u, now) => ClearStep(keys, u, now)
    case TtlElapsed(u) => (keys - {u}, [])
  }

  /** The keys after a run of steps, and every event emitted on the way. */
  function Run(keys: map<UserId, PresencePayload>, steps: seq<Step>): (map<UserId, PresencePayload>, seq<Event>)
    decreases |steps|
  {
    if steps == [] then (keys, [])
    else
      var first := Apply(keys, steps[0]);
      var rest := Run(first.0, steps[1..]);
      (rest.0, first.1 + rest.1)
  }

  function Onlines(events: seq<Event>, u: UserId): nat
  {
    if events == [] then 0
    else (if events[0].UserOnline? && events[0].user == u then 1 else 0) + Onlines(events[1..], u)
  }

  function Offlines(events: seq<Event>, u: UserId): nat
  {
    if events == [] then 0
    else (if events[0].UserOffline? && events[0].user == u then 1 else 0) + Offlines(events[1..], u)
  }

  lemma {:induction false} CountsSplit(a: seq<Event>, b: seq<Event>, u: UserId)
    ensures Onlines(a + b, u) == Onlines(a, u) + Onlines(b, u)
    ensures Offlines(a + b, u) == Offlines(a, u) + Offlines(b, u)
  {
    if a == [] {
      assert a + b == b;
    } else {
      assert (a + b)[0] == a[0];
      assert (a + b)[1..] == a[1..] + b;
      CountsSplit(a[1..], b, u);
    }
  }

  /** Over any run, each `user_offline` for `u` is matched by an earlier
      `user_online`: the offline events plus a key still present never exceed
      the online events plus a key present at the start. */
  lemma {:induction false} OfflineFollowsOnline(keys: map<UserId, PresencePayload>, steps: seq<Step>, u: UserId)
    ensures var r := Run(keys, steps);
      Offlines(r.1, u) + (if u in r.0 then 1 else 0) <= Onlines(r.1, u) + (if u in keys then 1 else 0)
    decreases |steps|
  {
    if steps != [] {
      var first := Apply(keys, steps[0]);
      var rest := Run(first.0, steps[1..]);
      OfflineFollowsOnline(first.0, steps[1..], u);
      CountsSplit(first.1, rest.1, u);
      match steps[0]
      case Beat(v, s, now) =>
        assert Onlines(first.1, u) + (if u in keys then 1 else 0) >= (if u in first.0 then 1 else 0);
      case ClearKey(v, now) =>
        assert Offlines(first.1, u) + (if u in first.0 then 1 else 0) <= (if u in keys then 1 else 0);
      case TtlElapsed(v) =>
    }
  }

  /** A second heartbeat with no clear in between emits nothing. */
  lemma SecondHeartbeatIsSilent(keys: map<UserId, PresencePayload>, u: UserId, s1: SessionId, s2: SessionId, t1: Time, t2: Time)
    ensures HeartbeatStep(HeartbeatStep(keys, u, s1, t1).0, u, s2, t2).1 == []
  {
  }

  /** Clearing twice emits `user_offline` at most once. */
  lemma SecondClearIsSilent(keys: map<UserId, PresencePayload>, u: UserId, t1: Time, t2: Time)
    ensures ClearStep(ClearStep(keys, u, t1).0, u, t2).1 == []
  {
  }

  /** The accepted gap: in any store where `u` is offline, a key that expires
      emits no `user_offline`, so the next heartbeat announces the user online
      a second time. */
  lemma ExpiryLosesOffline(keys: map<UserId, PresencePayload>, u: UserId, s: SessionId, t1: Time, t2: Time)
    requires u !in keys
    ensures Run(keys, [Beat(u, s, t1), TtlElapsed(u), Beat(u, s, t2)]).1
         == [UserOnline(u, s, t1), UserOnline(u, s, t2)]
    ensures Run(keys, [Beat(u, s, t1), TtlElapsed(u), Beat(u, s, t2)]).0 == keys[u := PresencePayload(s, t2)]
  {
    var steps := [Beat(u, s, t1), TtlElapsed(u), Beat(u, s, t2)];
    var m1 := keys[u := PresencePayload(s, t1)];
    var m3 := keys[u := PresencePayload(s, t2)];
    assert m1 - {u} == keys;
    assert steps[1..][1..][1..] == [];
    assert Apply(keys, steps[0]) == (m1, [UserOnline(u, s, t1)]);
    assert Apply(m1, steps[1..][0]) == (keys, []);
    assert Apply(keys, steps[1..][1..][0]) == (m3, [UserOnline(u, s, t2)]);
    assert Run(m3, steps[1..][1..][1..]) == (m3, []);
    assert [UserOnline(u, s, t2)] + [] == [UserOnline(u, s, t2)];
    assert Run(keys, steps[1..][1..]) == (m3, [UserOnline(u, s, t2)]);
    assert [] + [UserOnline(u, s, t2)] == [UserOnline(u, s, t2)];
    assert Run(m1, steps[1..]) == (m3, [UserOnline(u, s, t2)]);
  }

  /** The presence keys of the key-value store. */
  class PresenceStore {
    var keys: map<UserId, PresencePayload>

    constructor ()
      ensures keys == map[]
    {
      keys := map[];
    }

    /** The TTL of `u`'s key elapsing: the key goes, no event is emitted. */
    method Expire(u: UserId)
      modifies this
      ensures keys == old(keys) - {u}
    {
      keys := keys - {u};
    }
  }

  /** `heartbeat(userId, sessionId)`: check whether the key exists, write it, emit on the offline-to-online edge. */
  method Heartbeat(store: PresenceStore, io: SocketServer, u: UserId, s: SessionId, now: Time)
    modifies store, io
    ensures store.keys == HeartbeatStep(old(store.keys), u, s, now).0
    ensures io.emitted == old(io.emitted) + Broadcast(HeartbeatStep(old(store.keys), u, s, now).1)
    ensures io.sockets == old(io.sockets)
  {
    var wasOffline := u !in store.keys;
    store.keys := store.keys[u := PresencePayload(s, now)];
    if wasOffline {
      io.Emit(Everyone, UserOnline(u, s, now));
      assert Broadcast([UserOnline(u, s, now)]) == [Emission(Everyone, UserOnline(u, s, now))];
    }
  }

  /** `getPresence(userId)`: the stored payload, or none when the key is absent. */
  function GetPresence(store: PresenceStore, u: UserId): (r: Option<PresencePayload>)
    reads store
    ensures r.None? <==> u !in store.keys
    ensures r.Some? ==> r.value == store.keys[u]
  {
    if u in store.keys then Some(store.keys[u]) else None
  }

  /** `clearPresence(userId)`: delete the key, emit `user_offline` only if it existed. */
  method ClearPresence(store: PresenceStore, io: SocketServer, u: UserId, now: Time)
    modifies store, io
    ensures store.keys == ClearStep(old(store.keys), u, now).0
    ensures io.emitted == old(io.emitted) + Broadcast(ClearStep(old(store.keys), u, now).1)
    ensures io.sockets == old(io.sockets)
  {
    var existed := u in store.keys;
    store.keys := store.keys - {u};
    if existed {
      io.Emit(Everyone, UserOffline(u, now));
      assert Broadcast([UserOffline(u, now)]) == [Emission(Everyone, UserOffline(u, now))];
    }
  }

  /** Events emitted with `io.emit`, to every socket. */
  function Broadcast(events: seq<Event>): (r: seq<Emission>)
    ensures |r| == |events|
    ensures forall i | 0 <= i < |events| :: r[i] == Emission(Everyone, events[i])
  {
    if events == [] then [] else [Emission(Everyone, events[0])] + Broadcast(events[1..])
  }
}
