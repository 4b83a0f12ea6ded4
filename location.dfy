/**
 * The proximity gate of the attendance application. Resolving the caller's
 * IP address, geolocating it and the haversine distance are external; the
 * model receives their outcome as a probe.
 */
module Location {

  /** The largest accepted distance, in kilometres, from the campus reference point. */
  const MaxDistanceKm: real := 1.0

  /** What the IP lookup and geolocation produced. */
  datatype Probe =
    | NoIpAddress                 // neither the socket probe nor the host name gave an address
    | NoCoordinates               // the geolocation service failed or did not answer "success"
    | Measured(distanceKm: real)  // distance from the caller to the reference point

  /** The decision of `verificar_localizacao`, keeping the reason of a refusal. */
  datatype Verdict =
    | Accepted
    | Unlocated
    | TooFar(distanceKm: real)

  /**
   * `verificar_localizacao`: refuses when no location is known, and when the
   * distance is strictly greater than the threshold.
   */
  function CheckLocation(probe: Probe): (v: Verdict)
    ensures v.Accepted? <==> probe.Measured? && probe.distanceKm <= MaxDistanceKm
    ensures v.Unlocated? <==> !probe.Measured?
    ensures v.TooFar? ==> probe.Measured? && v.distanceKm == probe.distanceKm
  {
    match probe
    case NoIpAddress => Unlocated
    case NoCoordinates => Unlocated
    case Measured(d) => if d > MaxDistanceKm then TooFar(d) else Accepted
  }

  /** A caller exactly at the threshold is accepted; any larger distance is refused. */
  lemma ThresholdIsInclusive(d: real)
    ensures CheckLocation(Measured(MaxDistanceKm)) == Accepted
    ensures d > MaxDistanceKm ==> CheckLocation(Measured(d)) == TooFar(d)
  {
  }
}
