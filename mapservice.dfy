// Geocoding as the rest of the service sees it: an address lookup (an HTTP
// query to a geocoding server and a point-in-polygon search over the
// zones, none of it modelled) yields a location and perhaps a zone.
module MapService {
  import opened Common
  import opened Model

  /** What a lookup of an address finds: its location and the zone holding it, if any. */
  type Geocoder = string -> Option<(LatLong, Option<Uuid>)>

  /**
   * `mapService.geocode(place)`: a place with an address gets the location
   * found for it and the zone found for it, when there is one; every other
   * field, and a place without an address or with an address nobody finds,
   * stays as it was.
   */
  function Geocode(lookup: Geocoder, p: Place): (r: Place)
    ensures r.(location := p.location, zoneId := p.zoneId) == p
    ensures (p.address.None? || lookup(p.address.value).None?) ==> r == p
    ensures (p.address.Some? && lookup(p.address.value).Some?) ==>
              r.location == Some(lookup(p.address.value).value.0) &&
              r.zoneId == Pick(lookup(p.address.value).value.1, p.zoneId)
  {
    if p.address.None? then p
    else match lookup(p.address.value)
      case None => p
      case Some((location, zone)) =>
        p.(location := Some(location), zoneId := if zone.Some? then zone else p.zoneId)
  }

  /**
   * Under a deterministic geocoder, one that answers the same address the
   * same way each time, geocoding a place a second time changes nothing.
   */
  lemma GeocodeIdempotent(lookup: Geocoder, p: Place)
    ensures Geocode(lookup, Geocode(lookup, p)) == Geocode(lookup, p)
  {
  }
}
