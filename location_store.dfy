/** The live-location keys `location:<user>` of the key-value store, as
    written by services/location.service.ts: last write wins, a 10-second TTL. */
module LiveLocation {
  import opened Domain

  const LOCATION_TTL_SECONDS := 10

  datatype LocationPayload = LocationPayload(lat: Coordinate, lng: Coordinate, accuracy: Coordinate, updatedAt: Time)

  class LocationStore {
    var live: map<UserId, LocationPayload>

    constructor ()
      ensures live == map[]
    {
      live := map[];
    }

    /** `updateLocation`: overwrite the user's key. */
    method Update(u: UserId, lat: Coordinate, lng: Coordinate, accuracy: Coordinate, now: Time)
      modifies this
      ensures live == old(live)[u := LocationPayload(lat, lng, accuracy, now)]
    {
      live := live[u := LocationPayload(lat, lng, accuracy, now)];
    }

    /** `clearLocation`: delete the user's key. */
    method Clear(u: UserId)
      modifies this
      ensures live == old(live) - {u}
    {
      live := live - {u};
    }

    /** The TTL elapsing without a refresh. */
    method Expire(u: UserId)
      modifies this
      ensures live == old(live) - {u}
    {
      live := live - {u};
    }
  }
}
